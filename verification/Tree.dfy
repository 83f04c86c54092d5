/** The directory tree behind a volume, the consistency invariant, and the
    abstract file map that a consistent volume stands for. */
module Tree {
  import opened Bytes
  import opened Layout
  import opened Fat
  import opened Volume

  /** A slot of a directory's table. */
  datatype Slot = Slot(dir: nat, index: nat)

  /** How a directory is reached: the slot that names it, and its depth. */
  datatype Origin = Origin(slot: Slot, depth: nat)

  /** The directories, by cluster number. */
  type Tree = map<nat, Origin>

  const ROOT_ORIGIN := Origin(Slot(0, 0), 0)

  ghost predicate InRange(a: Slot) {
    a.dir < CLUSTER_MAP_SIZE && 2 <= a.index < TABLE_SIZE
  }

  ghost function Entry(s: State, a: Slot): DirEntry
    requires InRange(a)
  {
    Table(s, a.dir)[a.index]
  }

  ghost function Head(s: State, a: Slot): nat
    requires InRange(a)
  {
    Entry(s, a).Head()
  }

  /** `a` is a live slot, other than the first two, of a directory of `t`. */
  ghost predicate IsLive(s: State, t: Tree, a: Slot) {
    InRange(a) && a.dir in t && Entry(s, a).IsLive()
  }

  /** Cluster `c` belongs to the chain of the entry in slot `a`. */
  ghost predicate Owns(s: State, a: Slot, c: nat) {
    InRange(a) && Terminated(s.fat, Head(s, a)) && c in Chain(s.fat, Head(s, a))
  }

  // ---------- The invariant ----------

  /** The cached table is the one on disk, and the reserved words hold. */
  ghost predicate Mounted(s: State) {
    s.disk[FAT_CLUSTER_NUMBER] == EncodeFat(s.fat) && HasSignature(s.disk) &&
    s.fat[0] == CLUSTER_0_VALUE && s.fat[1] == CLUSTER_1_VALUE
  }

  /** The entry in `a` heads a chain that avoids the root and is no longer than
      the recorded size. If it names a directory of the tree, it says so and is
      the slot by which that directory is reached. */
  ghost predicate EntryOk(s: State, t: Tree, a: Slot)
    requires InRange(a) && a.dir in t
  {
    var h := Head(s, a);
    Ordered(s.fat, h) && ROOT_CLUSTER_NUMBER !in Chain(s.fat, h) &&
    |Chain(s.fat, h)| * CLUSTER_SIZE <= Entry(s, a).filesize &&
    (h in t ==> Entry(s, a).IsDirectory() && t[h] == Origin(a, t[a.dir].depth + 1))
  }

  /** The first entry of the table in `d` says that it is a directory. */
  ghost predicate IsMarked(s: State, d: nat)
    requires d < CLUSTER_MAP_SIZE
  {
    Table(s, d)[0].IsDirectory()
  }

  /** Directory `d` takes one cluster. The root is marked as a directory; any other
      directory is named by exactly the slot its origin says. */
  ghost predicate DirOk(s: State, t: Tree, d: nat)
    requires d in t
  {
    2 <= d < CLUSTER_MAP_SIZE && s.fat[d] == END_OF_FILE &&
    if d == ROOT_CLUSTER_NUMBER then IsMarked(s, d)
    else
      var a := t[d].slot;
      IsLive(s, t, a) && Entry(s, a).IsDirectory() && Head(s, a) == d && t[d].depth == t[a.dir].depth + 1
  }

  ghost predicate DirsOk(s: State, t: Tree) {
    ROOT_CLUSTER_NUMBER in t && t[ROOT_CLUSTER_NUMBER] == ROOT_ORIGIN &&
    forall d {:trigger DirOk(s, t, d)} :: d in t ==> DirOk(s, t, d)
  }

  ghost predicate EntriesOk(s: State, t: Tree) {
    forall a {:trigger EntryOk(s, t, a)} :: IsLive(s, t, a) ==> EntryOk(s, t, a)
  }

  /** No cluster belongs to two live entries. */
  ghost predicate NoSharing(s: State, t: Tree) {
    forall a, b, c :: IsLive(s, t, a) && IsLive(s, t, b) && Owns(s, a, c) && Owns(s, b, c) ==> a == b
  }

  /** Live entries of one directory have distinct identifiers. */
  ghost predicate UniqueIds(s: State, t: Tree) {
    forall a, b :: IsLive(s, t, a) && IsLive(s, t, b) && a.dir == b.dir && Entry(s, a).Id() == Entry(s, b).Id() ==> a == b
  }

  /** Everything a file or directory refers to is sound. Clusters that nothing
      refers to may still be marked as used. */
  ghost predicate Sound(s: State, t: Tree) {
    Mounted(s) && DirsOk(s, t) && EntriesOk(s, t) && NoSharing(s, t) && UniqueIds(s, t)
  }

  ghost predicate Referenced(s: State, t: Tree, c: nat) {
    c in t || exists a :: IsLive(s, t, a) && Owns(s, a, c)
  }

  /** Every used cluster is referred to. */
  ghost predicate NoLeak(s: State, t: Tree) {
    forall c :: 2 <= c < CLUSTER_MAP_SIZE && s.fat[c] != EMPTY_ENTRY ==> Referenced(s, t, c)
  }

  /** What holds between operations. */
  ghost predicate Consistent(s: State, t: Tree) {
    Sound(s, t) && NoLeak(s, t)
  }

  // ---------- The abstract file map ----------

  /** A name in a directory. */
  datatype Key = Key(dir: nat, id: seq<byte>)

  /** A directory is usable as a parent when its own first entry marks it so. An
      impostor is an entry with the directory attribute that is no directory of
      the tree: a file in a reused slot, or a directory made from a table that
      was not empty. */
  datatype Node =
    | File(size: word, clusters: seq<Cluster>)
    | Directory(cluster: nat, usable: bool)
    | Impostor(size: word, clusters: seq<Cluster>)
  {
    /** Number of clusters the node takes. */
    function Size(): nat {
      if Directory? then 1 else |clusters|
    }
  }

  ghost function KeyOf(s: State, a: Slot): Key
    requires InRange(a)
  {
    Key(a.dir, Entry(s, a).Id())
  }

  ghost function NodeOf(s: State, t: Tree, e: DirEntry): Node
    requires Ordered(s.fat, e.Head())
  {
    if e.Head() as nat in t then ChainStart(s.fat, e.Head()); Directory(e.Head(), IsMarked(s, e.Head()))
    else if e.IsDirectory() then Impostor(e.filesize, ChainClusters(s, e.Head()))
    else File(e.filesize, ChainClusters(s, e.Head()))
  }

  lemma ChainStart(fat: FatMap, h: nat)
    requires Ordered(fat, h)
    ensures 2 <= h < CLUSTER_MAP_SIZE
  {
    assert Chain(fat, h)[0] == h;
  }

  ghost function LiveSlots(s: State, t: Tree): set<Slot> {
    set d, i | d in t.Keys && 2 <= i < TABLE_SIZE && IsLive(s, t, Slot(d, i)) :: Slot(d, i)
  }

  ghost function Keys(s: State, t: Tree): set<Key> {
    set a | a in LiveSlots(s, t) :: KeyOf(s, a)
  }

  /** The slot where the driver's search ends. */
  ghost function SlotOf(s: State, k: Key): Slot
    requires k.dir < CLUSTER_MAP_SIZE
  {
    Slot(k.dir, Find(Table(s, k.dir), k.id))
  }

  lemma KeysHave(s: State, t: Tree, k: Key) returns (a: Slot)
    requires k in Keys(s, t)
    ensures IsLive(s, t, a) && KeyOf(s, a) == k
  {
    a :| a in LiveSlots(s, t) && KeyOf(s, a) == k;
  }

  /** The driver's search for the identifier of a live entry ends at that entry. */
  lemma SearchFinds(s: State, t: Tree, a: Slot)
    requires UniqueIds(s, t) && IsLive(s, t, a)
    ensures SlotOf(s, KeyOf(s, a)) == a
  {
    hide DecodeDir;
    var id := Entry(s, a).Id();
    var i := Find(Table(s, a.dir), id);
    assert Matches(Table(s, a.dir)[a.index], id);
    assert IsLive(s, t, Slot(a.dir, i));
  }

  /** A search that fails means there is no such live entry. */
  lemma SearchFails(s: State, t: Tree, a: Slot, id: seq<byte>)
    requires IsLive(s, t, a) && Find(Table(s, a.dir), id) == TABLE_SIZE
    ensures Entry(s, a).Id() != id
  {
    hide DecodeDir;
    assert !Matches(Table(s, a.dir)[a.index], id);
  }

  lemma KeyNode(s: State, t: Tree, k: Key)
    requires Sound(s, t) && k in Keys(s, t)
    ensures k.dir < CLUSTER_MAP_SIZE && IsLive(s, t, SlotOf(s, k))
    ensures Ordered(s.fat, Head(s, SlotOf(s, k)))
  {
    hide DecodeDir, Keys, Find;
    var a := KeysHave(s, t, k);
    SearchFinds(s, t, a);
    assert EntryOk(s, t, a);
  }

  /** Names to files and directories, as the driver's own search resolves them. */
  ghost function Abs(s: State, t: Tree): map<Key, Node>
    requires Sound(s, t)
  {
    map k | k in Keys(s, t) :: KeyNode(s, t, k); NodeOf(s, t, Entry(s, SlotOf(s, k)))
  }

  lemma AbsAt(s: State, t: Tree, a: Slot)
    requires Sound(s, t) && IsLive(s, t, a)
    ensures EntryOk(s, t, a)
    ensures KeyOf(s, a) in Abs(s, t) && Abs(s, t)[KeyOf(s, a)] == NodeOf(s, t, Entry(s, a))
  {
    hide DecodeDir, Find, Entry, NodeOf;
    SearchFinds(s, t, a);
    assert Slot(a.dir, a.index) == a && a in LiveSlots(s, t);
    assert KeyOf(s, a) in Keys(s, t);
  }

  lemma AbsHas(s: State, t: Tree, k: Key) returns (a: Slot)
    requires Sound(s, t) && k in Abs(s, t)
    ensures IsLive(s, t, a) && EntryOk(s, t, a) && KeyOf(s, a) == k && Abs(s, t)[k] == NodeOf(s, t, Entry(s, a))
  {
    hide DecodeDir, Keys, Find, Entry, NodeOf;
    a := KeysHave(s, t, k);
    AbsAt(s, t, a);
  }

  /** Slot `a` is live in both volumes, with the same entry, clusters and node. */
  ghost predicate SameSlot(s: State, t: Tree, s': State, t': Tree, a: Slot) {
    IsLive(s, t, a) && IsLive(s', t', a) && EntryOk(s, t, a) && EntryOk(s', t', a) &&
    Entry(s', a) == Entry(s, a) && NodeOf(s', t', Entry(s', a)) == NodeOf(s, t, Entry(s, a)) &&
    forall c :: Owns(s', a, c) <==> Owns(s, a, c)
  }

  /** Two volumes stand for the same map when they have the same live slots with
      the same names and nodes. */
  lemma SameAbs(s: State, t: Tree, s': State, t': Tree)
    requires Sound(s, t) && Sound(s', t')
    requires forall a :: IsLive(s, t, a) || IsLive(s', t', a) ==> SameSlot(s, t, s', t', a)
    ensures Abs(s', t') == Abs(s, t)
  {
    hide DecodeDir, NodeOf, Sound, Abs, Table, Chain, Terminated;
    forall k | k in Abs(s, t)
      ensures k in Abs(s', t') && Abs(s', t')[k] == Abs(s, t)[k]
    {
      var a := AbsHas(s, t, k);
      AbsAt(s', t', a);
    }
    forall k | k in Abs(s', t')
      ensures k in Abs(s, t)
    {
      var a := AbsHas(s', t', k);
      AbsAt(s, t, a);
    }
  }
}

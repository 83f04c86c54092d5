/** What consistency says about the allocation table and the directories. */
module Structure {
  import opened Bytes
  import opened Layout
  import opened Fat
  import opened Volume
  import opened Tree
  import opened Frames
  import opened Entries
  import opened Refinement

  // ---------- The used clusters ----------

  /** A directory other than the root belongs to the entry that names it. */
  lemma DirectoryOwner(s: State, t: Tree, d: nat)
    requires Sound(s, t) && d in t && d != ROOT_CLUSTER_NUMBER
    ensures IsLive(s, t, t[d].slot) && Entry(s, t[d].slot).IsDirectory() && Owns(s, t[d].slot, d)
  {
    hide DecodeDir, Mounted, NoSharing, UniqueIds, Entry;
    assert DirOk(s, t, d);
    SoundEntry(s, t, t[d].slot);
  }

  /** The used clusters from 2 up are the root and the clusters that belong to
      live entries, each to exactly one of them. */
  lemma UsedIsOwned(s: State, t: Tree, c: nat)
    requires Consistent(s, t) && 2 <= c < CLUSTER_MAP_SIZE
    ensures s.fat[c] != EMPTY_ENTRY <==> c == ROOT_CLUSTER_NUMBER || exists a :: IsLive(s, t, a) && Owns(s, a, c)
    ensures forall a, b :: IsLive(s, t, a) && IsLive(s, t, b) && Owns(s, a, c) && Owns(s, b, c) ==> a == b
    ensures forall a :: IsLive(s, t, a) && Owns(s, a, c) ==> c != ROOT_CLUSTER_NUMBER
  {
    hide DecodeDir, Mounted, UniqueIds, Entry, IsLive, Owns;
    if c == ROOT_CLUSTER_NUMBER {
      assert DirOk(s, t, c);
      forall a | IsLive(s, t, a)
        ensures !Owns(s, a, c)
      {
        RootUnowned(s, t, a);
      }
    } else if c in t {
      DirectoryOwner(s, t, c);
    }
    if a :| IsLive(s, t, a) && Owns(s, a, c) {
      assert Referenced(s, t, c);
    }
    if Referenced(s, t, c) {
      ReferencedUsed(s, t, c);
    }
  }

  lemma RootUnowned(s: State, t: Tree, a: Slot)
    requires Sound(s, t) && IsLive(s, t, a)
    ensures !Owns(s, a, ROOT_CLUSTER_NUMBER)
  {
    SoundEntry(s, t, a);
  }

  /** The position of a used cluster in the chain it belongs to. */
  lemma OwnedAt(s: State, a: Slot, c: nat) returns (k: nat)
    requires Owns(s, a, c)
    ensures k < |Chain(s.fat, Head(s, a))| && Chain(s.fat, Head(s, a))[k] == c
    ensures IsChain(s.fat, Chain(s.fat, Head(s, a)))
  {
    ChainIsChain(s.fat, Head(s, a));
    k :| 0 <= k < |Chain(s.fat, Head(s, a))| && Chain(s.fat, Head(s, a))[k] == c;
  }

  /** The word of a used cluster ends a chain or links to a larger used cluster. */
  lemma LinksIncrease(s: State, t: Tree, c: nat)
    requires Consistent(s, t) && 2 <= c < CLUSTER_MAP_SIZE && s.fat[c] != EMPTY_ENTRY
    ensures s.fat[c] == END_OF_FILE || (c < s.fat[c] < CLUSTER_MAP_SIZE && s.fat[s.fat[c]] != EMPTY_ENTRY)
  {
    hide DecodeDir, Sound, NoLeak, Entry, IsLive, Owns;
    UsedIsOwned(s, t, c);
    if c == ROOT_CLUSTER_NUMBER {
      RootEnds(s, t);
    } else {
      var a :| IsLive(s, t, a) && Owns(s, a, c);
      OwnerOrdered(s, t, a);
      OwnerLinks(s, a, c);
    }
  }

  lemma OwnerOrdered(s: State, t: Tree, a: Slot)
    requires Sound(s, t) && IsLive(s, t, a)
    ensures InRange(a) && Ordered(s.fat, Head(s, a))
  {
    SoundEntry(s, t, a);
  }

  lemma RootEnds(s: State, t: Tree)
    requires Sound(s, t)
    ensures s.fat[ROOT_CLUSTER_NUMBER] == END_OF_FILE
  {
    assert DirOk(s, t, ROOT_CLUSTER_NUMBER);
  }

  lemma OwnerLinks(s: State, a: Slot, c: nat)
    requires Owns(s, a, c) && Ordered(s.fat, Head(s, a))
    ensures 2 <= c < CLUSTER_MAP_SIZE
    ensures s.fat[c] == END_OF_FILE ||
            (c < s.fat[c] < CLUSTER_MAP_SIZE && Owns(s, a, s.fat[c]) && s.fat[s.fat[c]] != EMPTY_ENTRY)
  {
    hide Chain, Terminated, Entry;
    var k := OwnedAt(s, a, c);
    var chain := Chain(s.fat, Head(s, a));
    ChainNext(s.fat, chain, k);
    if k < |chain| - 1 {
      assert chain[k] < chain[k + 1] && chain[k + 1] in chain;
      ChainAllocated(s.fat, Head(s, a), chain[k + 1]);
    }
  }

  /** No two used clusters link to the same cluster. */
  lemma NoSharedTarget(s: State, t: Tree, c: nat, d: nat)
    requires Consistent(s, t) && 2 <= c < CLUSTER_MAP_SIZE && 2 <= d < CLUSTER_MAP_SIZE
    requires s.fat[c] == s.fat[d] && s.fat[c] != EMPTY_ENTRY && s.fat[c] != END_OF_FILE
    ensures c == d
  {
    hide DecodeDir, Sound, NoLeak, Entry, IsLive, Owns;
    RootEnds(s, t);
    UsedIsOwned(s, t, c);
    UsedIsOwned(s, t, d);
    var a :| IsLive(s, t, a) && Owns(s, a, c);
    var b :| IsLive(s, t, b) && Owns(s, b, d);
    OwnerOrdered(s, t, a);
    OwnerOrdered(s, t, b);
    OwnerLinks(s, a, c);
    OwnerLinks(s, b, d);
    UsedIsOwned(s, t, s.fat[c]);
    SameChainTarget(s, a, c, d);
  }

  lemma SameChainTarget(s: State, a: Slot, c: nat, d: nat)
    requires Owns(s, a, c) && Owns(s, a, d) && c < CLUSTER_MAP_SIZE && d < CLUSTER_MAP_SIZE
    requires s.fat[c] == s.fat[d] && s.fat[c] != END_OF_FILE
    ensures c == d
  {
    hide Chain, Terminated, Entry;
    var j := OwnedAt(s, a, c);
    var k := OwnedAt(s, a, d);
    var chain := Chain(s.fat, Head(s, a));
    ChainNext(s.fat, chain, j);
    ChainNext(s.fat, chain, k);
    ChainDistinct(s.fat, chain);
    assert j < |chain| - 1 && k < |chain| - 1;
  }

  // ---------- The driver's test for a directory ----------

  /** `p` is the last cluster of a file or an impostor. */
  ghost predicate EndsFile(s: State, t: Tree, p: nat) {
    p < CLUSTER_MAP_SIZE && s.fat[p] == END_OF_FILE &&
    exists a :: IsLive(s, t, a) && Head(s, a) !in t && Owns(s, a, p)
  }

  /** The test on the parent cluster accepts the directories of the tree whose
      own entry says so and, besides them, exactly the last clusters of files
      whose contents look like that. */
  lemma ParentTestExact(s: State, t: Tree, p: word)
    requires Consistent(s, t) && 2 <= p < CLUSTER_MAP_SIZE
    ensures ParentOk(s, p) <==> Table(s, p)[0].IsDirectory() && (p as nat in t || EndsFile(s, t, p))
    ensures !(p as nat in t && EndsFile(s, t, p))
  {
    hide DecodeDir, Mounted, UniqueIds, Owns, Entry;
    if p as nat in t {
      assert DirOk(s, t, p);
      forall a | IsLive(s, t, a) && Head(s, a) !in t
        ensures !Owns(s, a, p)
      {
        FileAvoidsDirs(s, t, a, p);
      }
    } else if s.fat[p] == END_OF_FILE {
      UsedIsOwned(s, t, p);
      RootEnds(s, t);
      var a :| IsLive(s, t, a) && Owns(s, a, p);
      if Head(s, a) in t {
        DirectoryIsOneCluster(s, t, a, p);
      }
    }
  }

  lemma DirectoryIsOneCluster(s: State, t: Tree, a: Slot, c: nat)
    requires Sound(s, t) && IsLive(s, t, a) && Head(s, a) in t && Owns(s, a, c)
    ensures c == Head(s, a)
  {
    hide DecodeDir, Mounted, NoSharing, UniqueIds, Entry;
    SoundEntry(s, t, a);
    assert DirOk(s, t, Head(s, a));
    OneCluster(s.fat, Head(s, a));
  }

  // ---------- The tree is the reachable directories ----------

  datatype Option<T> = None | Some(value: T)

  /** Follow a path of slots from the root. */
  ghost function Resolve(s: State, path: seq<nat>): Option<nat>
    decreases |path|
  {
    if path == [] then Some(ROOT_CLUSTER_NUMBER)
    else
      var i := path[|path| - 1];
      match Resolve(s, path[..|path| - 1])
      case None => None
      case Some(d) =>
        if InRange(Slot(d, i)) && Entry(s, Slot(d, i)).IsLive() && Entry(s, Slot(d, i)).IsDirectory()
        then Some(Head(s, Slot(d, i))) else None
  }

  /** Every live entry with the directory attribute is a directory of the tree. */
  ghost predicate NoImpostors(s: State, t: Tree) {
    forall a :: IsLive(s, t, a) && Entry(s, a).IsDirectory() ==> Head(s, a) in t
  }

  /** Without impostors, every path leads to a directory of the tree, at the depth
      of its length. */
  lemma {:induction false} PathsStayInTree(s: State, t: Tree, path: seq<nat>)
    requires Sound(s, t) && NoImpostors(s, t) && Resolve(s, path).Some?
    ensures Resolve(s, path).value in t && t[Resolve(s, path).value].depth == |path|
    decreases |path|
  {
    hide DecodeDir, Mounted, NoSharing, UniqueIds, Entry;
    if path != [] {
      var front := path[..|path| - 1];
      PathsStayInTree(s, t, front);
      SoundEntry(s, t, Slot(Resolve(s, front).value, path[|path| - 1]));
    }
  }

  /** Every directory of the tree is reached by a path. */
  lemma {:induction false} TreeIsReached(s: State, t: Tree, d: nat) returns (path: seq<nat>)
    requires Sound(s, t) && d in t
    ensures Resolve(s, path) == Some(d) && |path| == t[d].depth
    decreases t[d].depth
  {
    hide DecodeDir, Mounted, EntriesOk, NoSharing, UniqueIds, Entry;
    if d == ROOT_CLUSTER_NUMBER {
      path := [];
    } else {
      assert DirOk(s, t, d);
      var a := t[d].slot;
      var front := TreeIsReached(s, t, a.dir);
      path := front + [a.index];
      assert path[..|path| - 1] == front;
    }
  }

  /** A tree without impostors holds every directory of every tree. */
  lemma SameDirectory(s: State, t: Tree, t': Tree, d: nat)
    requires Sound(s, t) && NoImpostors(s, t) && Sound(s, t') && d in t'
    ensures d in t && t[d] == t'[d]
  {
    hide DecodeDir, Mounted, EntriesOk, UniqueIds, Entry, Owns, DirOk, Resolve, NoImpostors;
    var path := TreeIsReached(s, t', d);
    PathsStayInTree(s, t, path);
    if d != ROOT_CLUSTER_NUMBER {
      DirectoryOwner(s, t, d);
      DirectoryOwner(s, t', d);
      var a := t'[d].slot;
      var up := TreeIsReached(s, t', a.dir);
      PathsStayInTree(s, t, up);
      assert IsLive(s, t, a);
    }
  }

  /** A sound volume has at most one tree without impostors. Any other tree it has
      is a part of that one. */
  lemma TreeIsDetermined(s: State, t: Tree, t': Tree)
    requires Sound(s, t) && NoImpostors(s, t) && Sound(s, t')
    ensures forall d :: d in t' ==> d in t && t[d] == t'[d]
    ensures t == t' <==> NoImpostors(s, t')
  {
    hide Sound, NoImpostors;
    forall d: nat
      ensures d in t' ==> d in t && t[d] == t'[d]
      ensures NoImpostors(s, t') && d in t ==> d in t'
    {
      if d in t' { SameDirectory(s, t, t', d); }
      if NoImpostors(s, t') && d in t { SameDirectory(s, t', t, d); }
    }
  }

  // ---------- An impostor that might as well be a directory ----------

  ghost function Promoted(s: State, t: Tree, a: Slot): Tree
    requires InRange(a) && a.dir in t
  {
    t[Head(s, a) := Origin(a, t[a.dir].depth + 1)]
  }

  /** An impostor of one cluster that decodes to a table without live entries
      cannot be told from a directory: the volume has both trees. */
  lemma ImpostorMayBeDirectory(s: State, t: Tree, a: Slot)
    requires Sound(s, t) && IsLive(s, t, a) && EntryOk(s, t, a)
    requires Head(s, a) !in t && Entry(s, a).IsDirectory()
    requires s.fat[Head(s, a)] == END_OF_FILE && IsEmptyTable(Table(s, Head(s, a)))
    ensures Sound(s, Promoted(s, t, a))
  {
    hide DecodeDir, Mounted, Entry, Chain, Terminated;
    var t' := Promoted(s, t, a);
    ChainStart(s.fat, Head(s, a));
    HeadReferenced(s, t, a);
    forall b
      ensures IsLive(s, t', b) <==> IsLive(s, t, b)
    {
      if IsLive(s, t', b) {
        EmptyTableNoSlot(s, Head(s, a), b);
      }
    }
    forall b | IsLive(s, t', b)
      ensures EntryOk(s, t', b)
    {
      SoundEntry(s, t, b);
      HeadReferenced(s, t, b);
    }
    forall d | d in t'
      ensures DirOk(s, t', d)
    {
      assert d in t ==> DirOk(s, t, d);
    }
  }

  lemma EmptyTableNoSlot(s: State, d: nat, b: Slot)
    requires d < DISK_CLUSTERS && IsEmptyTable(Table(s, d)) && InRange(b) && Entry(s, b).IsLive()
    ensures b.dir != d
  {
    hide DecodeDir;
  }
}

/** The three changes that every operation is made of: unreferenced clusters
    change, an entry appears, an entry disappears. */
module Frames {
  import opened Layout
  import opened Fat
  import opened Volume
  import opened Tree

  // ---------- Unreferenced clusters change ----------

  /** `s'` has the same words and contents in every cluster that `s` refers to. */
  ghost predicate SameReferenced(s: State, s': State, t: Tree) {
    forall c :: 0 <= c < CLUSTER_MAP_SIZE && Referenced(s, t, c) ==> s'.fat[c] == s.fat[c] && s'.disk[c] == s.disk[c]
  }

  lemma SlotFrame(s: State, s': State, t: Tree, a: Slot)
    requires Sound(s, t) && SameReferenced(s, s', t)
    ensures IsLive(s, t, a) || IsLive(s', t, a) ==> SameSlot(s, t, s', t, a)
  {
    hide DecodeDir, NoSharing, UniqueIds, Mounted, Chain, Terminated;
    if InRange(a) && a.dir in t {
      assert Referenced(s, t, a.dir);
      assert Table(s', a.dir) == Table(s, a.dir);
      if IsLive(s, t, a) {
        assert EntryOk(s, t, a);
        ChainSame(s, s', t, a);
        assert Head(s, a) in t ==> Referenced(s, t, Head(s, a)) && DirOk(s, t, Head(s, a));
      }
    }
  }

  lemma ChainSame(s: State, s': State, t: Tree, a: Slot)
    requires SameReferenced(s, s', t) && IsLive(s, t, a) && Ordered(s.fat, Head(s, a))
    ensures Ordered(s'.fat, Head(s, a)) && Chain(s'.fat, Head(s, a)) == Chain(s.fat, Head(s, a))
    ensures ChainClusters(s', Head(s, a)) == ChainClusters(s, Head(s, a))
  {
    hide DecodeDir, Chain, Terminated, Entry;
    var h := Head(s, a);
    ChainIsChain(s.fat, h);
    forall c | c in Chain(s.fat, h)
      ensures c < CLUSTER_MAP_SIZE && s'.fat[c] == s.fat[c] && s'.disk[c] == s.disk[c]
    {
      assert Owns(s, a, c);
      assert Referenced(s, t, c);
    }
    ChainFrame(s.fat, s'.fat, h);
    assert ChainClusters(s', h) == ChainClusters(s, h);
  }

  lemma DirFrame(s: State, s': State, t: Tree, d: nat)
    requires Sound(s, t) && SameReferenced(s, s', t) && d in t
    ensures DirOk(s', t, d)
  {
    hide DecodeDir, EntriesOk, NoSharing, UniqueIds, Mounted, Entry;
    assert DirOk(s, t, d) && Referenced(s, t, d);
    if d != ROOT_CLUSTER_NUMBER {
      SlotFrame(s, s', t, t[d].slot);
    }
  }

  /** Changing only what nothing refers to keeps the volume sound and its map. */
  lemma Frame(s: State, s': State, t: Tree)
    requires Sound(s, t) && Mounted(s') && SameReferenced(s, s', t)
    ensures Sound(s', t) && Abs(s', t) == Abs(s, t)
  {
    hide DecodeDir, Entry, EntryOk, Owns, Mounted, SameReferenced, DirOk, Abs, NodeOf;
    forall a
      ensures IsLive(s, t, a) || IsLive(s', t, a) ==> SameSlot(s, t, s', t, a)
    {
      SlotFrame(s, s', t, a);
    }
    forall d | d in t
      ensures DirOk(s', t, d)
    {
      DirFrame(s, s', t, d);
    }
    SameAbs(s, t, s', t);
  }

  /** ... and what is referred to stays the same. */
  lemma FrameReferenced(s: State, s': State, t: Tree, c: nat)
    requires Sound(s, t) && SameReferenced(s, s', t)
    ensures Referenced(s', t, c) <==> Referenced(s, t, c)
  {
    hide DecodeDir, Entry, EntryOk, Owns, SameReferenced, Sound;
    forall a
      ensures IsLive(s, t, a) || IsLive(s', t, a) ==> SameSlot(s, t, s', t, a)
    {
      SlotFrame(s, s', t, a);
    }
  }

  /** Whatever is referred to is marked as used. */
  lemma ReferencedUsed(s: State, t: Tree, c: nat)
    requires Sound(s, t) && Referenced(s, t, c)
    ensures 2 <= c < CLUSTER_MAP_SIZE && s.fat[c] != EMPTY_ENTRY
  {
    hide DecodeDir, Entry, Ordered, Mounted;
    if c in t {
      assert DirOk(s, t, c);
    } else {
      var a :| IsLive(s, t, a) && Owns(s, a, c);
      assert EntryOk(s, t, a);
      ChainAllocated(s.fat, Head(s, a), c);
    }
  }
}

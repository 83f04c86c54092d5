/** A VARIANT of the claim loop of `write`, not the loop of the source: a cluster
    is marked as used in the same time round that claims it. It shows what the
    as-coded loop is short of. */
module MarkedVariant {
  import opened Bytes
  import opened Layout
  import opened Fat
  import opened Volume
  import opened Tree
  import opened Refinement
  import opened RoundTrip

  /** The table, and the clusters claimed so far. */
  datatype Claims = Claims(fat: FatMap, taken: seq<nat>)

  ghost predicate InMap(c: Claims) {
    forall k :: 0 <= k < |c.taken| ==> c.taken[k] < CLUSTER_MAP_SIZE
  }

  /** One time round: find the first EMPTY cluster, link the last one claimed to
      it, and mark it. */
  function MarkedNext(c: Claims): (c': Claims)
    requires InMap(c)
    ensures InMap(c')
  {
    var e := Empties(c.fat, 2);
    if e == [] then c
    else
      var next, last := e[0], |c.taken| - 1;
      var linked := if c.taken == [] then c.fat else c.fat[c.taken[last] := next];
      Claims(linked[next := END_OF_FILE], c.taken + [next])
  }

  function MarkedLoop(fat: FatMap, i: nat): (c: Claims)
    ensures InMap(c)
  {
    if i == 0 then Claims(fat, []) else MarkedNext(MarkedLoop(fat, i - 1))
  }

  /** After `i` times round, the first `i` EMPTY clusters form one chain. */
  lemma {:induction false} MarkedLoopClaims(fat: FatMap, i: nat)
    requires i <= FreeCount(fat)
    ensures InTable(Empties(fat, 2)[..i])
    ensures MarkedLoop(fat, i) == Claims(MarkedFat(fat, Empties(fat, 2)[..i]), Empties(fat, 2)[..i])
  {
    hide Empties, MarkedFat;
    var e := Empties(fat, 2);
    if i == 0 {
      assert e[..0] == [];
      NothingMarked(fat);
    } else {
      MarkedLoopClaims(fat, i - 1);
      MarkedSearch(fat, i - 1);
      MarkedStep(fat, e, i);
    }
  }

  lemma NothingMarked(fat: FatMap)
    ensures MarkedFat(fat, []) == fat
  {
  }

  ghost function MarkedFat(fat: FatMap, chain: seq<nat>): FatMap
    requires InTable(chain)
  {
    if chain == [] then fat else Link(fat, chain)
  }

  /** The EMPTY clusters left are the rest of the list. */
  lemma RestListed(fat: FatMap, e: seq<nat>, i: nat)
    requires ListsEmpties(fat, 2, e) && i <= |e|
    ensures InTable(e[..i]) && ListsEmpties(MarkedFat(fat, e[..i]), 2, e[i..])
  {
    hide Link, Chain, Terminated;
    if i > 0 {
      LinkMakesChain(fat, e[..i]);
    }
    var f := MarkedFat(fat, e[..i]);
    forall k | 0 <= k < |e[i..]|
      ensures f[e[i..][k]] == EMPTY_ENTRY
    {
      assert e[i..][k] !in e[..i];
    }
    forall c | 2 <= c < CLUSTER_MAP_SIZE && f[c] == EMPTY_ENTRY
      ensures c in e[i..]
    {
      assert c !in e[..i] && c in e;
      assert e == e[..i] + e[i..];
    }
  }

  /** The first EMPTY cluster is now the next one of the old list. */
  lemma MarkedSearch(fat: FatMap, i: nat)
    requires i < FreeCount(fat)
    ensures var e := Empties(fat, 2);
            InTable(e[..i]) && Empties(MarkedFat(fat, e[..i]), 2) == e[i..]
  {
    hide Link, Empties, MarkedFat;
    var e := Empties(fat, 2);
    RestListed(fat, e, i);
    SameList(Empties(MarkedFat(fat, e[..i]), 2), e[i..]);
  }

  /** An ascending list is determined by its elements. */
  lemma {:induction false} SameList(a: seq<nat>, b: seq<nat>)
    requires Ascending(a) && Ascending(b)
    requires forall c :: c in a <==> c in b
    ensures a == b
    decreases |a|
  {
    assert Elements(a) == Elements(b);
    AscendingSize(a);
    AscendingSize(b);
    if |a| > 0 {
      assert a[0] in b && b[0] in a;
      forall c
        ensures c in a[1..] <==> c in b[1..]
      {
        assert c in a[1..] <==> c in a && c != a[0];
        assert c in b[1..] <==> c in b && c != b[0];
      }
      SameList(a[1..], b[1..]);
    }
  }

  /** Storing a chain and storing it without its last cluster. */
  lemma LinkExtends(fat: FatMap, b: seq<nat>)
    requires InTable(b) && |b| > 1
    ensures var a := b[..|b| - 1];
            Link(fat, b) == Link(fat, a)[a[|a| - 1] := b[|a|]][b[|a|] := END_OF_FILE]
  {
    var a := b[..|b| - 1];
    LinkToPrefix(fat, a, b, |a| - 1);
    assert LinkTo(fat, b, |a|) == LinkTo(fat, b, |a| - 1)[b[|a| - 1] := b[|a|]];
  }

  /** Linking and marking one more cluster extends the chain by it. */
  lemma MarkedStep(fat: FatMap, e: seq<nat>, i: nat)
    requires InTable(e) && 1 <= i <= |e|
    ensures var f := MarkedFat(fat, e[..i - 1]);
            InTable(e[..i]) && e[..i] == e[..i - 1] + [e[i - 1]] &&
            MarkedFat(fat, e[..i]) == (if i == 1 then f else f[e[i - 2] := e[i - 1]])[e[i - 1] := END_OF_FILE]
  {
    if i > 1 {
      hide Link;
      LinkExtends(fat, e[..i]);
      assert e[..i][..i - 1] == e[..i - 1];
    }
  }

  /** The variant claims all `n` clusters it checked for. */
  function MarkedChain(s: State, r: Request): (chain: seq<nat>)
    requires r.Chunks() <= FreeCount(s.fat)
    ensures |chain| == r.Chunks() && ClaimsFree(s.fat, chain)
  {
    MarkedLoopClaims(s.fat, r.Chunks());
    MarkedLoop(s.fat, r.Chunks()).taken
  }

  /** The as-coded loop claims the same chain exactly when the request fills less
      than one cluster. */
  lemma SameChainExact(s: State, r: Request)
    requires r.Chunks() <= FreeCount(s.fat)
    ensures WriteChain(s, r) == MarkedChain(s, r) <==> r.buffer_size < CLUSTER_SIZE
    ensures WriteChain(s, r) == MarkedChain(s, r)[..(r.Chunks() + 1) / 2]
  {
    hide Empties, MarkedLoop;
    MarkedLoopClaims(s.fat, r.Chunks());
  }

  /** With the variant a stored file has all its chunks in order, for every size,
      and unless its slot was stale `read` accepts it and delivers them. */
  lemma MarkedRoundTrip(s: State, t: Tree, r: Request, buf: seq<byte>, size: word)
    requires Sound(s, t) && LegalWrite(s, t, r, buf) && WriteCode(s, r) == 0
    requires r.buffer_size > 0 && r.Chunks() * CLUSTER_SIZE <= size
    ensures var chain := MarkedChain(s, r);
            CanStore(s, t, r, buf, chain, chain) &&
            var s', t', q := Stored(s, r, buf, chain, chain), StoreTree(s, t, r, buf, chain), ReadRequest(r, size);
            r.Chunks() <= CLUSTER_MAP_SIZE - 2 && Sound(s', t') && Key(r.parent, r.Id()) !in Abs(s, t) &&
            Abs(s', t') == Abs(s, t)[Key(r.parent, r.Id()) := NewNode(s, r, buf, chain[0], AllChunks(buf, r.Chunks()))] &&
            ReadCode(s', q) == (if StaleSlot(s, r) then 1 else 0) &&
            (!StaleSlot(s, r) ==>
              Walkable(s', q.parent, q.Id()) && ReadData(s', q) == AllChunks(buf, r.Chunks()) &&
              Restores(Flatten(ReadData(s', q)), buf, r.buffer_size))
  {
    hide Sound, Abs, Stored, Link, Apply, Empties, MarkedLoop, DecodeDir, Chunk, FindFrom, FreeSlot, StoreTree,
         Walkable, ReadData, ReadCode, StaleSlot, NewNode;
    var chain := MarkedChain(s, r);
    StoreRefines(s, t, r, buf, chain, chain);
    StoredIsReadable(s, t, r, buf, chain, chain, size);
    if !StaleSlot(s, r) {
      StoredReadsBack(s, t, r, buf, chain, chain, size);
    }
    MarkedContents(s.disk, chain, buf);
    AllChunksRestore(buf, r.Chunks());
  }

  lemma MarkedContents(disk: Disk, chain: seq<nat>, buf: seq<byte>)
    requires InTable(chain) && CLUSTER_SIZE * |chain| <= |buf|
    ensures Contents(Apply(disk, DataPuts(chain, buf)), chain) == AllChunks(buf, |chain|)
  {
    hide Apply, Chunk;
    forall k | 0 <= k < |chain|
      ensures Apply(disk, DataPuts(chain, buf))[chain[k]] == Chunk(buf, k)
    {
      LastWriteWins(disk, DataPuts(chain, buf), k);
    }
  }
}

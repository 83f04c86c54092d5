/** Cluster chains inside the allocation table. */
module Fat {
  import opened Bytes
  import opened Layout

  // ---------- EMPTY clusters, in ascending order ----------

  ghost predicate Ascending(s: seq<nat>) {
    forall j, k :: 0 <= j < k < |s| ==> s[j] < s[k]
  }

  ghost predicate InTable(e: seq<nat>) {
    Ascending(e) && forall k :: 0 <= k < |e| ==> 2 <= e[k] < CLUSTER_MAP_SIZE
  }

  /** `e` lists the EMPTY clusters from `from` on, in ascending order. */
  ghost predicate ListsEmpties(fat: FatMap, from: nat, e: seq<nat>) {
    Ascending(e) &&
    (forall k :: 0 <= k < |e| ==> from <= e[k] < CLUSTER_MAP_SIZE && fat[e[k]] == EMPTY_ENTRY) &&
    (forall c :: from <= c < CLUSTER_MAP_SIZE && fat[c] == EMPTY_ENTRY ==> c in e)
  }

  /** The EMPTY clusters from `from` to the end of the table. */
  function Empties(fat: FatMap, from: nat): (r: seq<nat>)
    requires from <= CLUSTER_MAP_SIZE
    ensures ListsEmpties(fat, from, r)
    decreases |fat| - from
  {
    if from == CLUSTER_MAP_SIZE then []
    else
      var rest := Empties(fat, from + 1);
      if fat[from] == EMPTY_ENTRY then
        EmptiesPrepend(fat, from, rest);
        [from] + rest
      else rest
  }

  lemma EmptiesPrepend(fat: FatMap, from: nat, rest: seq<nat>)
    requires from < CLUSTER_MAP_SIZE && fat[from] == EMPTY_ENTRY && ListsEmpties(fat, from + 1, rest)
    ensures ListsEmpties(fat, from, [from] + rest)
  {
    var e := [from] + rest;
    assert forall k :: 1 <= k < |e| ==> e[k] == rest[k - 1];
    forall c | from <= c < CLUSTER_MAP_SIZE && fat[c] == EMPTY_ENTRY
      ensures c in e
    {
      assert c == e[0] || c in rest;
    }
  }

  /** Number of EMPTY clusters that `write` counts. */
  function FreeCount(fat: FatMap): nat {
    |Empties(fat, 2)|
  }

  ghost function FreeSet(fat: FatMap): set<nat> {
    set c | 2 <= c < CLUSTER_MAP_SIZE && fat[c] == EMPTY_ENTRY
  }

  ghost function Elements(s: seq<nat>): set<nat> {
    set c | c in s
  }

  lemma {:induction false} AscendingSize(s: seq<nat>)
    requires Ascending(s)
    ensures |Elements(s)| == |s|
  {
    if s == [] {
      assert Elements(s) == {};
    } else {
      var last := |s| - 1;
      AscendingSize(s[..last]);
      assert s == s[..last] + [s[last]];
      assert Elements(s) == Elements(s[..last]) + {s[last]};
    }
  }

  lemma {:induction false} AscendingBound(s: seq<nat>)
    requires InTable(s)
    ensures |s| > 0 ==> |s| + 1 <= s[|s| - 1]
    ensures |s| <= CLUSTER_MAP_SIZE - 2
  {
    if |s| > 1 {
      AscendingBound(s[..|s| - 1]);
    }
  }

  lemma FreeCountIsSize(fat: FatMap)
    ensures FreeCount(fat) == |FreeSet(fat)|
  {
    AscendingSize(Empties(fat, 2));
    assert Elements(Empties(fat, 2)) == FreeSet(fat);
  }

  // ---------- Chains ----------

  /** `c` lists exactly the clusters met by following links from `c[0]`. */
  ghost predicate IsChain(fat: FatMap, c: seq<nat>) {
    |c| > 0 && (forall k :: 0 <= k < |c| ==> c[k] < CLUSTER_MAP_SIZE) &&
    (forall k {:trigger fat[c[k]]} :: 0 <= k < |c| - 1 ==> fat[c[k]] == c[k + 1]) &&
    fat[c[|c| - 1]] == END_OF_FILE
  }

  /** Following links from `h` stays in the table and ends. */
  ghost predicate Terminated(fat: FatMap, h: nat) {
    exists c :: IsChain(fat, c) && c[0] == h
  }

  /** The clusters of the chain that starts at `h`. */
  ghost function Chain(fat: FatMap, h: nat): (r: seq<nat>)
    requires Terminated(fat, h)
    ensures |r| > 0 && r[0] == h
  {
    var c :| IsChain(fat, c) && c[0] == h;
    c
  }

  /** Links determine the chain from its first cluster on. */
  lemma {:induction false} SameStart(fat: FatMap, a: seq<nat>, b: seq<nat>)
    requires IsChain(fat, a) && IsChain(fat, b) && a[0] == b[0]
    ensures a == b
    decreases |a|
  {
    assert |a| > 1 ==> fat[a[0]] == a[1] < CLUSTER_MAP_SIZE;
    assert |b| > 1 ==> fat[b[0]] == b[1] < CLUSTER_MAP_SIZE;
    if |a| > 1 {
      TailIsChain(fat, a);
      TailIsChain(fat, b);
      SameStart(fat, a[1..], b[1..]);
      assert a == [a[0]] + a[1..] && b == [b[0]] + b[1..];
    }
  }

  lemma TailIsChain(fat: FatMap, c: seq<nat>)
    requires IsChain(fat, c) && |c| > 1
    ensures IsChain(fat, c[1..]) && fat[c[0]] == c[1]
  {
    forall k | 0 <= k < |c[1..]| - 1
      ensures fat[c[1..][k]] == c[1..][k + 1]
    {
      assert fat[c[k + 1]] == c[k + 2];
    }
  }

  lemma {:induction false} SuffixIsChain(fat: FatMap, c: seq<nat>, k: nat)
    requires IsChain(fat, c) && k < |c|
    ensures IsChain(fat, c[k..])
  {
    if k == 0 {
      assert c[0..] == c;
    } else {
      TailIsChain(fat, c);
      SuffixIsChain(fat, c[1..], k - 1);
      assert c[k..] == c[1..][k - 1..];
    }
  }

  /** A chain does not come back to its first cluster: from there it would have to
      be as long again. */
  lemma FirstMetOnce(fat: FatMap, c: seq<nat>, k: nat)
    requires IsChain(fat, c) && 0 < k < |c|
    ensures c[k] != c[0]
  {
    SuffixIsChain(fat, c, k);
    if c[k] == c[0] {
      SameStart(fat, c, c[k..]);
    }
  }

  /** No cluster is met twice, in whatever order the links go. */
  lemma {:induction false} ChainDistinct(fat: FatMap, c: seq<nat>)
    requires IsChain(fat, c)
    ensures forall j, k :: 0 <= j < k < |c| ==> c[j] != c[k]
    ensures |Elements(c)| == |c|
  {
    if |c| > 1 {
      TailIsChain(fat, c);
      ChainDistinct(fat, c[1..]);
      forall k | 1 <= k < |c|
        ensures c[0] != c[k]
      {
        FirstMetOnce(fat, c, k);
      }
      DistinctPrepend(c);
    } else {
      assert Elements(c) == {c[0]};
    }
  }

  lemma DistinctPrepend(c: seq<nat>)
    requires |c| > 0
    requires forall k :: 1 <= k < |c| ==> c[0] != c[k]
    requires forall j, k :: 0 <= j < k < |c[1..]| ==> c[1..][j] != c[1..][k]
    ensures forall j, k :: 0 <= j < k < |c| ==> c[j] != c[k]
    ensures |Elements(c)| == |Elements(c[1..])| + 1
  {
    assert forall k :: 1 <= k < |c| ==> c[k] == c[1..][k - 1];
    assert Elements(c) == {c[0]} + Elements(c[1..]);
    assert c[0] !in c[1..];
  }

  lemma ChainIsChain(fat: FatMap, h: nat)
    requires Terminated(fat, h)
    ensures IsChain(fat, Chain(fat, h))
  {
  }

  lemma ChainUnique(fat: FatMap, c: seq<nat>)
    requires IsChain(fat, c)
    ensures Terminated(fat, c[0]) && Chain(fat, c[0]) == c
  {
    SameStart(fat, c, Chain(fat, c[0]));
  }

  lemma ChainNext(fat: FatMap, c: seq<nat>, k: nat)
    requires IsChain(fat, c) && k < |c|
    ensures c[k] < CLUSTER_MAP_SIZE
    ensures fat[c[k]] == END_OF_FILE <==> k == |c| - 1
    ensures k < |c| - 1 ==> fat[c[k]] == c[k + 1]
    ensures c[k] !in c[..k]
  {
    ChainDistinct(fat, c);
    assert k < |c| - 1 ==> c[k + 1] < CLUSTER_MAP_SIZE;
  }

  /** A chain as `write` makes them: from 2 up, each link to a larger cluster. */
  ghost predicate Ordered(fat: FatMap, h: nat) {
    Terminated(fat, h) && InTable(Chain(fat, h))
  }

  /** The clusters of such a chain are never EMPTY. */
  lemma ChainAllocated(fat: FatMap, h: nat, c: nat)
    requires Ordered(fat, h) && c in Chain(fat, h)
    ensures 2 <= c < CLUSTER_MAP_SIZE && fat[c] != EMPTY_ENTRY
  {
    ChainIsChain(fat, h);
    var chain := Chain(fat, h);
    var k :| 0 <= k < |chain| && chain[k] == c;
    assert k < |chain| - 1 ==> chain[k + 1] > 0;
  }

  /** A chain depends only on the words of its own clusters. */
  lemma ChainFrame(fat: FatMap, fat': FatMap, h: nat)
    requires Terminated(fat, h)
    requires forall c :: c in Chain(fat, h) && c < CLUSTER_MAP_SIZE ==> fat'[c] == fat[c]
    ensures Terminated(fat', h) && Chain(fat', h) == Chain(fat, h)
  {
    hide Chain, Terminated;
    ChainIsChain(fat, h);
    var c := Chain(fat, h);
    assert forall k :: 0 <= k < |c| ==> c[k] in c;
    ChainUnique(fat', c);
  }

  // ---------- Linking and freeing ----------

  /** `chain` can be stored in clusters that are all EMPTY. */
  ghost predicate ClaimsFree(fat: FatMap, chain: seq<nat>) {
    |chain| > 0 && InTable(chain) && forall k :: 0 <= k < |chain| ==> fat[chain[k]] == EMPTY_ENTRY
  }

  /** `fat` after `chain[0]` .. `chain[j]` were linked one to the next. */
  function LinkTo(fat: FatMap, chain: seq<nat>, j: nat): (r: FatMap)
    requires j < |chain| && InTable(chain)
  {
    if j == 0 then fat else LinkTo(fat, chain, j - 1)[chain[j - 1] := chain[j]]
  }

  /** `fat` with `chain` stored as a chain. */
  function Link(fat: FatMap, chain: seq<nat>): (r: FatMap)
    requires |chain| > 0 && InTable(chain)
  {
    LinkTo(fat, chain, |chain| - 1)[chain[|chain| - 1] := END_OF_FILE]
  }

  lemma {:induction false} LinkToAt(fat: FatMap, chain: seq<nat>, j: nat)
    requires j < |chain| && InTable(chain)
    ensures forall k :: 0 <= k < j ==> LinkTo(fat, chain, j)[chain[k]] == chain[k + 1]
    ensures forall c :: 0 <= c < CLUSTER_MAP_SIZE && c !in chain[..j] ==> LinkTo(fat, chain, j)[c] == fat[c]
  {
    if j > 0 {
      LinkToAt(fat, chain, j - 1);
      assert chain[..j] == chain[..j - 1] + [chain[j - 1]];
    }
  }

  /** Linking depends only on the clusters it has reached. */
  lemma {:induction false} LinkToPrefix(fat: FatMap, a: seq<nat>, b: seq<nat>, j: nat)
    requires j < |a| <= |b| && a == b[..|a|] && InTable(b)
    ensures LinkTo(fat, a, j) == LinkTo(fat, b, j)
  {
    if j > 0 {
      LinkToPrefix(fat, a, b, j - 1);
    }
  }

  /** Linking distinct ascending clusters makes exactly that chain and touches
      no other word. */
  lemma LinkMakesChain(fat: FatMap, chain: seq<nat>)
    requires |chain| > 0 && InTable(chain)
    ensures Ordered(Link(fat, chain), chain[0]) && Chain(Link(fat, chain), chain[0]) == chain
    ensures forall c :: 0 <= c < CLUSTER_MAP_SIZE && c !in chain ==> Link(fat, chain)[c] == fat[c]
    ensures forall c :: c in chain ==> Link(fat, chain)[c] != EMPTY_ENTRY
  {
    hide Chain, Terminated;
    var last := |chain| - 1;
    LinkToAt(fat, chain, last);
    var fat' := Link(fat, chain);
    assert IsChain(fat', chain);
    ChainUnique(fat', chain);
    forall c | c in chain
      ensures fat'[c] != EMPTY_ENTRY
    {
      ChainAllocated(fat', chain[0], c);
    }
    forall c | 0 <= c < CLUSTER_MAP_SIZE && c !in chain
      ensures fat'[c] == fat[c]
    {
      assert chain[last] in chain;
    }
  }

  /** `fat` with every cluster of `chain` EMPTY. */
  function Clear(fat: FatMap, chain: seq<nat>): (r: FatMap) {
    seq<word>(CLUSTER_MAP_SIZE, c requires 0 <= c < CLUSTER_MAP_SIZE =>
      if c in chain then EMPTY_ENTRY else fat[c])
  }

  /** Freeing a chain undoes storing it in EMPTY clusters, word for word. */
  lemma ClearUndoesLink(fat: FatMap, chain: seq<nat>)
    requires ClaimsFree(fat, chain)
    ensures Clear(Link(fat, chain), chain) == fat
  {
    LinkMakesChain(fat, chain);
  }

  // ---------- Conservation of free clusters ----------

  lemma ClearFreeCount(fat: FatMap, h: nat)
    requires Ordered(fat, h)
    ensures FreeCount(Clear(fat, Chain(fat, h))) == FreeCount(fat) + |Chain(fat, h)|
  {
    hide FreeCount, Chain, Terminated;
    var chain := Chain(fat, h);
    ChainIsChain(fat, h);
    FreeCountIsSize(fat);
    FreeCountIsSize(Clear(fat, chain));
    ChainDistinct(fat, chain);
    ClearFreeSet(fat, h);
    assert |FreeSet(fat) + Elements(chain)| == |FreeSet(fat)| + |Elements(chain)|;
  }

  lemma ClearFreeSet(fat: FatMap, h: nat)
    requires Ordered(fat, h)
    ensures FreeSet(Clear(fat, Chain(fat, h))) == FreeSet(fat) + Elements(Chain(fat, h))
    ensures FreeSet(fat) !! Elements(Chain(fat, h))
  {
    hide Chain, Terminated;
    forall c | c in Chain(fat, h)
      ensures 2 <= c < CLUSTER_MAP_SIZE && fat[c] != EMPTY_ENTRY
    {
      ChainAllocated(fat, h, c);
    }
  }

  lemma LinkFreeCount(fat: FatMap, chain: seq<nat>)
    requires ClaimsFree(fat, chain)
    ensures FreeCount(Link(fat, chain)) + |chain| == FreeCount(fat)
  {
    hide FreeCount, Link, Chain, Terminated;
    LinkMakesChain(fat, chain);
    ClearUndoesLink(fat, chain);
    ClearFreeCount(Link(fat, chain), chain[0]);
  }
}

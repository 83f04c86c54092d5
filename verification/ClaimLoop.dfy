/** The loop of `write` that claims clusters, as a function of the number of
    times round, with the facts its search for an EMPTY cluster relies on. */
module ClaimLoop {
  import opened Layout
  import opened Fat

  /** The table after `i` times round. A cluster is not marked when it is
      claimed, so it is claimed again one time later; after an even number of
      times the last cluster is linked to itself. */
  ghost function After(fat: FatMap, e: seq<nat>, i: nat): FatMap
    requires InTable(e) && i <= |e|
  {
    if i == 0 then fat
    else
      var j := (i - 1) / 2;
      if i % 2 == 1 then LinkTo(fat, e, j) else LinkTo(fat, e, j)[e[j] := e[j]]
  }

  /** The cluster claimed by time round number `i`. */
  function Claimed(e: seq<nat>, i: nat): nat
    requires i < |e|
  {
    e[i / 2]
  }

  /** Where the search of the next time round starts. */
  ghost function Start(e: seq<nat>, i: nat): nat
    requires i <= |e|
  {
    if i == 0 then 2 else e[(i - 1) / 2]
  }

  /** The first time round links nothing. */
  lemma AfterFirst(fat: FatMap, e: seq<nat>)
    requires InTable(e) && |e| > 0
    ensures After(fat, e, 0) == fat && Start(e, 0) == 2 && After(fat, e, 1) == fat
  {
  }

  /** The next search starts at the cluster just claimed. */
  lemma StartNext(e: seq<nat>, i: nat)
    requires i < |e|
    ensures Start(e, i + 1) == Claimed(e, i)
  {
  }

  /** Linking the previous cluster to the one just found is one time round. */
  lemma AfterStep(fat: FatMap, e: seq<nat>, i: nat)
    requires InTable(e) && 1 <= i < |e|
    ensures After(fat, e, i)[Start(e, i) := Claimed(e, i)] == After(fat, e, i + 1)
  {
    var j := (i - 1) / 2;
    if i % 2 == 1 {
      assert i / 2 == j && (i + 1) % 2 == 0;
    } else {
      assert i / 2 == j + 1 && (i + 1) % 2 == 1;
      assert LinkTo(fat, e, j + 1) == LinkTo(fat, e, j)[e[j] := e[j + 1]];
    }
  }

  /** No EMPTY cluster lies strictly between neighbours of the list. */
  lemma NoEmptyBetween(fat: FatMap, e: seq<nat>, k: nat, c: nat)
    requires ListsEmpties(fat, 2, e) && k < |e|
    requires 2 <= c < e[k] && (k > 0 ==> e[k - 1] < c)
    ensures fat[c] != EMPTY_ENTRY
  {
    forall m | 0 <= m < |e|
      ensures e[m] != c
    {
      assert m >= k || (k > 0 && m == k - 1) || (k > 0 && m < k - 1);
    }
  }

  /** A word the loop has not linked yet still has its old value. */
  lemma NotYetLinked(fat: FatMap, e: seq<nat>, j: nat, c: nat)
    requires InTable(e) && j < |e| && 0 <= c < CLUSTER_MAP_SIZE && e[j] <= c
    ensures LinkTo(fat, e, j)[c] == fat[c]
  {
    LinkToAt(fat, e, j);
    assert forall k :: 0 <= k < j ==> e[k] < e[j];
    assert c !in e[..j];
  }

  /** From where a search starts, the next EMPTY cluster is number `i / 2` of
      the list: the search, which tests no bound, stops there, inside the table. */
  lemma SearchStops(fat: FatMap, e: seq<nat>, i: nat, c: nat)
    requires ListsEmpties(fat, 2, e) && i < |e|
    requires Start(e, i) <= c <= Claimed(e, i)
    ensures Start(e, i) <= Claimed(e, i)
    ensures After(fat, e, i)[c] == EMPTY_ENTRY <==> c == Claimed(e, i)
  {
    if i == 0 {
      if c < e[0] {
        NoEmptyBetween(fat, e, 0, c);
      }
    } else {
      var j := (i - 1) / 2;
      NotYetLinked(fat, e, j, c);
      if i % 2 == 1 {
        assert i / 2 == j;
      } else {
        assert i / 2 == j + 1;
        if e[j] < c < e[j + 1] {
          NoEmptyBetween(fat, e, j + 1, c);
        }
      }
    }
  }

  /** Marking the last cluster after `n` times round leaves one chain of the
      first ceil(n/2) EMPTY clusters. */
  lemma LoopMakesLink(fat: FatMap, e: seq<nat>, n: nat)
    requires InTable(e) && 1 <= n <= |e|
    ensures After(fat, e, n)[Start(e, n) := END_OF_FILE] == Link(fat, e[..(n + 1) / 2])
  {
    var j := (n - 1) / 2;
    var chain := e[..j + 1];
    assert (n + 1) / 2 == j + 1;
    LinkToPrefix(fat, chain, e, j);
    assert Link(fat, chain) == LinkTo(fat, e, j)[e[j] := END_OF_FILE];
  }
}

/** Cluster chains in the file allocation table. */
module FatChains {
  import opened Prelude

  const EOC: nat := 0x0FFF_FFFF    // the end mark the driver writes
  const END: nat := 0x0FFF_FFF8    // link values from here on end a chain

  /** `GetNextCluster`: the low 28 bits of the word. */
  function Next(fat: seq<nat>, c: nat): nat
    requires c < |fat|
  {
    fat[c] % 0x1000_0000
  }

  predicate Cluster(c: nat) { 2 <= c < END }

  /** The links of the first n clusters stay among the first n clusters. */
  ghost predicate Closed(fat: seq<nat>, n: nat) {
    n <= |fat| && forall c: nat :: c < n && Cluster(Next(fat, c)) ==> Next(fat, c) < n
  }

  /** p follows the links of the table. */
  ghost predicate IsWalk(fat: seq<nat>, p: seq<nat>) {
    && p != []
    && (forall i :: 0 <= i < |p| ==> Cluster(p[i]) && p[i] < |fat|)
    && (forall i :: 0 < i < |p| ==> p[i] == Next(fat, p[i - 1]))
  }

  /** Cluster c is met when the links are followed from s. */
  ghost predicate Reached(fat: seq<nat>, s: nat, c: nat) {
    exists p: seq<nat> :: IsWalk(fat, p) && p[0] == s && p[|p| - 1] == c
  }

  /** The clusters whose links lead somewhere: what shrinks with every round of `FreeChain`. */
  ghost function Linked(fat: seq<nat>): (s: set<nat>)
    ensures forall c :: c in s <==> 0 <= c < |fat| && Next(fat, c) != 0
  {
    set c: nat | c < |fat| && Next(fat, c) != 0
  }

  // ---------- FreeChain ----------

  /** The table with the visited words zeroed. */
  ghost predicate ZeroedAt(fat0: seq<nat>, fat: seq<nat>, visited: set<nat>) {
    |fat| == |fat0| && forall c: nat :: c < |fat| ==> fat[c] == if c in visited then 0 else fat0[c]
  }

  /** The state of the sweep: everything visited is reachable, and every link out of a visited cluster leads to a
      visited cluster, to the cluster at hand, or out of the table. */
  ghost predicate Sweep(fat0: seq<nat>, n: nat, s: nat, visited: set<nat>, cur: nat) {
    && n <= |fat0| && (forall v :: v in visited ==> v < n && Reached(fat0, s, v))
    && (Cluster(cur) ==> cur < n && Reached(fat0, s, cur))
    && (s in visited || s == cur)
    && (forall v :: v in visited && Cluster(Next(fat0, v)) ==> Next(fat0, v) in visited || Next(fat0, v) == cur)
  }

  lemma SweepStart(fat: seq<nat>, n: nat, s: nat)
    requires n <= |fat| && (Cluster(s) ==> s < n)
    ensures Sweep(fat, n, s, {}, s) && ZeroedAt(fat, fat, {})
  {
    if Cluster(s) { assert IsWalk(fat, [s]); }
  }

  lemma ReachedNext(fat: seq<nat>, n: nat, s: nat, c: nat)
    requires Closed(fat, n) && c < n && Reached(fat, s, c) && Cluster(Next(fat, c))
    ensures Next(fat, c) < n && Reached(fat, s, Next(fat, c))
  {
    var p :| IsWalk(fat, p) && p[0] == s && p[|p| - 1] == c;
    assert IsWalk(fat, p + [Next(fat, c)]);
  }

  /** One round: the word of the cluster at hand is read, then zeroed. */
  lemma SweepStep(fat0: seq<nat>, fat: seq<nat>, n: nat, s: nat, visited: set<nat>, cur: nat)
    requires Closed(fat0, n) && Sweep(fat0, n, s, visited, cur) && ZeroedAt(fat0, fat, visited) && Cluster(cur)
    ensures cur < |fat|
    ensures Sweep(fat0, n, s, visited + {cur}, Next(fat, cur)) && ZeroedAt(fat0, fat[cur := 0], visited + {cur})
    ensures Linked(fat[cur := 0]) < Linked(fat) || (Linked(fat[cur := 0]) == Linked(fat) && !Cluster(Next(fat, cur)))
  {
    if cur !in visited && Cluster(Next(fat0, cur)) {
      ReachedNext(fat0, n, s, cur);
    }
    assert Linked(fat[cur := 0]) == Linked(fat) - {cur};
  }

  lemma {:induction false} WalkStaysVisited(fat: seq<nat>, s: nat, visited: set<nat>, p: seq<nat>, i: nat)
    requires IsWalk(fat, p) && p[0] == s && s in visited && i < |p|
    requires forall v :: v in visited ==> v < |fat|
    requires forall v :: v in visited && Cluster(Next(fat, v)) ==> Next(fat, v) in visited
    ensures p[i] in visited
  {
    if i > 0 { WalkStaysVisited(fat, s, visited, p, i - 1); }
  }

  /** When the sweep leaves the table, it has visited exactly the reachable clusters. */
  lemma SweepDone(fat: seq<nat>, n: nat, s: nat, visited: set<nat>, cur: nat)
    requires Sweep(fat, n, s, visited, cur) && !Cluster(cur)
    ensures forall c: nat :: c in visited <==> Reached(fat, s, c)
  {
    forall c: nat | Reached(fat, s, c) ensures c in visited {
      var p :| IsWalk(fat, p) && p[0] == s && p[|p| - 1] == c;
      assert Cluster(p[0]);
      WalkStaysVisited(fat, s, visited, p, |p| - 1);
    }
  }

  // ---------- well-formed chains ----------

  /** A chain of clusters 2..127 ended by the end mark. */
  ghost predicate IsChain(fat: seq<nat>, chain: seq<nat>) {
    && chain != [] && |fat| >= 128
    && (forall i :: 0 <= i < |chain| ==> 2 <= chain[i] < 128)
    && (forall i :: 0 < i < |chain| ==> fat[chain[i - 1]] == chain[i])
    && fat[chain[|chain| - 1]] == EOC
  }

  /** Only the last cluster of a chain holds the end mark. */
  lemma EndMark(fat: seq<nat>, chain: seq<nat>, i: nat)
    requires IsChain(fat, chain) && i < |chain|
    ensures fat[chain[i]] == EOC <==> i == |chain| - 1
    ensures i < |chain| - 1 ==> fat[chain[i]] == chain[i + 1]
  {}

  /** Two chains that meet have the same ending. */
  lemma {:induction false} ChainsMerge(fat: seq<nat>, a: seq<nat>, b: seq<nat>, i: nat, j: nat)
    requires IsChain(fat, a) && IsChain(fat, b) && i < |a| && j < |b| && a[i] == b[j]
    ensures |a| - i == |b| - j
    decreases |a| - i
  {
    EndMark(fat, a, i);
    EndMark(fat, b, j);
    if i < |a| - 1 {
      ChainsMerge(fat, a, b, i + 1, j + 1);
    }
  }

  /** Chains are acyclic. */
  lemma ChainDistinct(fat: seq<nat>, chain: seq<nat>)
    requires IsChain(fat, chain)
    ensures forall i, j :: 0 <= i < j < |chain| ==> chain[i] != chain[j]
  {
    forall i, j | 0 <= i < j < |chain| ensures chain[i] != chain[j] {
      if chain[i] == chain[j] { ChainsMerge(fat, chain, chain, i, j); }
    }
  }

  lemma {:induction false} WalkFollowsChain(fat: seq<nat>, chain: seq<nat>, p: seq<nat>, i: nat)
    requires IsChain(fat, chain) && IsWalk(fat, p) && p[0] == chain[0] && i < |p|
    ensures i < |chain| && p[i] == chain[i]
  {
    if i > 0 {
      WalkFollowsChain(fat, chain, p, i - 1);
      EndMark(fat, chain, i - 1);
      assert p[i] == Next(fat, p[i - 1]);
    }
  }

  /** Following the links from the head of a chain meets exactly its members. */
  lemma ReachedIsChain(fat: seq<nat>, chain: seq<nat>, c: nat)
    requires IsChain(fat, chain)
    ensures Reached(fat, chain[0], c) <==> c in chain
  {
    if Reached(fat, chain[0], c) {
      var p :| IsWalk(fat, p) && p[0] == chain[0] && p[|p| - 1] == c;
      WalkFollowsChain(fat, chain, p, |p| - 1);
    }
    if c in chain {
      var i :| 0 <= i < |chain| && chain[i] == c;
      assert IsWalk(fat, chain[..i + 1]);
    }
  }

  // ---------- AllocateCluster ----------

  /** The lowest free cluster the driver looks at: those of the first FAT sector. */
  function FirstFree(fat: seq<nat>, i: nat): (r: Option<nat>)
    requires |fat| >= 128 && i <= 128
    ensures r.None? ==> forall c: nat :: i <= c < 128 ==> fat[c] != 0
    ensures r.Some? ==> i <= r.value < 128 && fat[r.value] == 0 && forall c: nat :: i <= c < r.value ==> fat[c] != 0
    decreases 128 - i
  {
    if i == 128 then None else if fat[i] == 0 then Some(i) else FirstFree(fat, i + 1)
  }

  /** The clusters the driver can still hand out. */
  function FreeClusters(fat: seq<nat>): (s: set<nat>)
    requires |fat| >= 128
    ensures forall c: nat :: c in s <==> 2 <= c < 128 && fat[c] == 0
  {
    set c: nat | 2 <= c < 128 && fat[c] == 0
  }

  lemma FirstFreeIff(fat: seq<nat>)
    requires |fat| >= 128
    ensures FirstFree(fat, 2).Some? <==> FreeClusters(fat) != {}
    ensures FirstFree(fat, 2).Some? ==> FirstFree(fat, 2).value in FreeClusters(fat)
  {
    if FreeClusters(fat) != {} {
      var c :| c in FreeClusters(fat);
      assert fat[c] == 0;
    }
  }
}

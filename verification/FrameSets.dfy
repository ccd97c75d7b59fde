/** Sets of physical frames and the naive first-fit search the allocator refines. */
module FrameSets {
  import opened Prelude

  const FRAME_SIZE: nat := 4096
  const TWO_64: nat := 0x1_0000_0000_0000_0000

  /** The frames i, i+1, ..., i+n-1. */
  function Frames(i: nat, n: nat): (s: set<nat>)
    ensures forall f: nat :: f in s <==> i <= f < i + n
    ensures |s| == n
    decreases n
  {
    if n == 0 then {} else Frames(i, n - 1) + {i + n - 1}
  }

  /** All n frames from i on are free and lie below `total`. */
  predicate Fits(free: set<nat>, total: nat, n: nat, i: nat) {
    i + n <= total && forall f: nat :: i <= f < i + n ==> f in free
  }

  /** Naive first fit: try every start frame in turn. */
  function FirstFit(free: set<nat>, total: nat, n: nat, i: nat): (r: Option<nat>)
    requires i <= total
    decreases total - i
  {
    if Fits(free, total, n, i) then Some(i)
    else if i == total then None
    else FirstFit(free, total, n, i + 1)
  }

  /** First fit returns the lowest fitting start, and None exactly when nothing fits. */
  lemma {:induction false} FirstFitIsLowest(free: set<nat>, total: nat, n: nat, i: nat)
    requires i <= total
    ensures FirstFit(free, total, n, i).None? <==> forall k: nat :: i <= k <= total ==> !Fits(free, total, n, k)
    ensures FirstFit(free, total, n, i).Some? ==>
              var k := FirstFit(free, total, n, i).value;
              i <= k <= total && Fits(free, total, n, k) && forall k': nat :: i <= k' < k ==> !Fits(free, total, n, k')
    decreases total - i
  {
    if !Fits(free, total, n, i) && i < total {
      FirstFitIsLowest(free, total, n, i + 1);
    }
  }

  /** A start known to be the lowest fitting one is the first-fit answer. */
  lemma FirstFitUnique(free: set<nat>, total: nat, n: nat, k: nat)
    requires k <= total && Fits(free, total, n, k)
    requires forall k': nat :: k' < k ==> !Fits(free, total, n, k')
    ensures FirstFit(free, total, n, 0) == Some(k)
  {
    FirstFitIsLowest(free, total, n, 0);
  }

  lemma NoneFree(free: set<nat>, total: nat, n: nat)
    requires free == {} && n > 0
    ensures FirstFit(free, total, n, 0) == None
  {
    forall k: nat | k <= total ensures !Fits(free, total, n, k) {
      assert k !in free;
    }
    FirstFitIsLowest(free, total, n, 0);
  }

  /** A used frame at distance j from i rules out every start between i and i+j: the skip-ahead loses nothing. */
  lemma SkipAhead(free: set<nat>, total: nat, n: nat, i: nat, j: nat)
    requires j < n
    requires i + j >= total || i + j !in free
    ensures forall k: nat :: i <= k <= i + j ==> !Fits(free, total, n, k)
  {
    forall k: nat | i <= k <= i + j ensures !Fits(free, total, n, k) {
      assert k <= i + j < k + n;
    }
  }
}

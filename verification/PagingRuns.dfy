/** Whole runs of the page manager: from boot through any sequence of allocations, and the memory of an app task. */
module PagingRuns {
  import opened Prelude
  import opened PageTables
  import opened PageTree
  import opened PageSteps
  import opened ProcessTrees
  import opened SharedTrees
  import opened Paging

  datatype Request = Request(vaddr: nat, size: nat, flags: Flags)

  /** Page q lies in none of the requested ranges. */
  ghost predicate Outside(q: Page, requests: seq<Request>) {
    forall k, i: nat :: 0 <= k < |requests| && i < PageCount(requests[k].size) ==> PageOf(At(requests[k].vaddr, i)) != q
  }

  /** The translation of the boot tables: itself below 64 GB, nothing above. */
  function BootTranslation(q: Page): Translation {
    if q.Number() < 64 * 0x40000 then To(q.Number(), true, true) else Fault
  }

  /** After boot and any allocations, successful or not, every page outside the requested ranges still translates
      to itself below 64 GB and to nothing above. */
  method BootAndAllocate(pm: PageManager, requests: seq<Request>) returns (oks: seq<bool>)
    requires pm.Frames() && |pm.Free()| >= 66
    modifies pm, pm.mm.bitmap.buffer
    ensures pm.Ready() && |oks| == |requests|
    ensures forall q: Page :: q.Valid() && Outside(q, requests) ==> Walk(pm.mem, pm.pml4, q) == BootTranslation(q)
  {
    hide PageCount, PageOf, At, Walk, PageManager.Ready, PageManager.Frames, BootTranslation;
    ghost var pdp, pds := pm.Initialize();
    BootView(pm.mem, pm.pml4);
    oks := [];
    for k := 0 to |requests|
      invariant pm.Ready() && |oks| == k
      invariant forall q: Page :: q.Valid() && Outside(q, requests[..k]) ==>
                  Walk(pm.mem, pm.pml4, q) == BootTranslation(q)
    {
      var r := requests[k];
      ghost var before := pm.mem;
      var ok;
      ghost var frames, done;
      ok, frames, done := pm.AllocateVirtual(r.vaddr, r.size, r.flags);
      oks := oks + [ok];
      forall q: Page | q.Valid() && Outside(q, requests[..k + 1])
        ensures Walk(pm.mem, pm.pml4, q) == BootTranslation(q)
      {
        OutsideMore(q, requests, k);
        AfterFramesOutside(Walk(before, pm.pml4, q), q, r.vaddr, frames[..done], r.flags);
      }
    }
    assert requests[..|requests|] == requests;
  }

  lemma BootView(m: Memory, root: nat)
    requires forall q: Page :: q.Valid() ==>
               Walk(m, root, q) == if q.Number() < 64 * 0x40000 then To(q.Number(), true, true) else Fault
    ensures forall q: Page :: q.Valid() ==> Walk(m, root, q) == BootTranslation(q)
  {}

  lemma OutsideMore(q: Page, requests: seq<Request>, k: nat)
    requires k < |requests| && Outside(q, requests[..k + 1])
    ensures Outside(q, requests[..k])
    ensures forall i: nat :: i < PageCount(requests[k].size) ==> PageOf(At(requests[k].vaddr, i)) != q
  {
    var rs := requests[..k + 1];
    assert rs[k] == requests[k];
    forall j, i: nat | 0 <= j < k && i < PageCount(requests[..k][j].size)
      ensures PageOf(At(requests[..k][j].vaddr, i)) != q
    {
      assert requests[..k][j] == rs[j];
    }
  }

  const USER_STACK_BASE: nat := 0x6FFF_0000
  const USER_STACK_SIZE: nat := 0x1_0000

  /** All sixteen pages of the user stack lie under one page-directory entry. */
  lemma StackPages(i: nat)
    requires i < 16
    ensures PageOf(At(USER_STACK_BASE, i)) == Page(0, 1, 383, 496 + i)
  {
    assert At(USER_STACK_BASE, i) == 0x6FFF_0000 + i * 0x1000;
  }

  lemma StackPageCount()
    ensures PageCount(USER_STACK_SIZE) == 16
  {}

  lemma StackIsolated(m: Memory, full: set<nat>, k: nat, n: nat, s: nat)
    requires n in full && Node(m, k, PtLoc(Page(0, 1, 383, 0))).None?
    requires forall l: Loc :: l.Depth() <= 3 && l !in Own() ==> Node(m, n, l) == Node(m, k, l)
    ensures Isolated(m, full, n, s, USER_STACK_BASE, 16)
  {
    forall i: nat | i < 16 ensures AppPage(m, n, s, PageOf(At(USER_STACK_BASE, i))) {
      StackPages(i);
      HugeSlotApart(m, k, n, s, Page(0, 1, 383, 496 + i));
    }
  }

  /** The page table of the user stack. */
  const STACK := PtLoc(Page(0, 1, 383, 0))

  /** Backing the stack takes one table, in a tree that has all the tables above it. */
  lemma StackTables(m: Memory, r: nat)
    requires Node(m, r, L0).Some? && Node(m, r, L01).Some? && Node(m, r, STACK).None?
    ensures TablesNeeded(m, r, USER_STACK_BASE, 15) == 1 && TablesNeeded(m, r, USER_STACK_BASE, 16) == 1
  {
    hide RangePath, At, PageOf;
    StackPath(15);
    StackPath(16);
    var ls := Path(Page(0, 1, 383, 496));
    assert ls == {L0, L01, STACK};
    assert MissingIn(m, r, ls) == {STACK};
  }

  lemma {:induction false} StackPath(n: nat)
    requires 0 < n <= 16
    ensures RangePath(USER_STACK_BASE, n) == Path(Page(0, 1, 383, 496))
  {
    hide At, PageOf;
    StackPages(n - 1);
    assert Path(Page(0, 1, 383, 496 + (n - 1))) == Path(Page(0, 1, 383, 496));
    if n > 1 { StackPath(n - 1); }
  }

  /** The stack of a complete root can be backed exactly with 17 free frames: 16 pages and their page table. */
  lemma StackGranted(m: Memory, r: nat, free: nat)
    requires Node(m, r, L0).Some? && Node(m, r, L01).Some? && Node(m, r, STACK).None?
    ensures Granted(m, r, USER_STACK_BASE, 16, free) <==> free >= 17
  {
    hide TablesNeeded;
    StackTables(m, r);
  }

  predicate OnStack(q: Page) { q.a == 0 && q.b == 1 && q.c == 383 && q.d >= 496 }

  /** The translations of a root with a stack: the frames of the stack in order, the old translations elsewhere. */
  ghost predicate StackMapped(m: Memory, m': Memory, r: nat, stack: seq<nat>) {
    |stack| == 16 && forall q: Page :: q.Valid() ==>
      Walk(m', r, q) == if OnStack(q) then To(stack[q.d - 496], true, true) else Walk(m, r, q)
  }

  lemma StackBacked(m: Memory, m': Memory, r: nat, stack: seq<nat>)
    requires |stack| == 16
    requires forall q: Page :: q.Valid() ==>
               Walk(m', r, q) == AfterFrames(Walk(m, r, q), q, USER_STACK_BASE, stack, Flags(true, true, true))
    ensures StackMapped(m, m', r, stack)
  {
    hide Walk, At, PageOf, AfterFrames;
    forall q: Page | q.Valid()
      ensures Walk(m', r, q) == if OnStack(q) then To(stack[q.d - 496], true, true) else Walk(m, r, q)
    {
      if OnStack(q) {
        StackPages(q.d - 496);
        AfterFramesInside(Walk(m, r, q), USER_STACK_BASE, stack, Flags(true, true, true), q.d - 496);
      } else {
        forall i: nat | i < 16 ensures PageOf(At(USER_STACK_BASE, i)) != q { StackPages(i); }
        AfterFramesOutside(Walk(m, r, q), q, USER_STACK_BASE, stack, Flags(true, true, true));
      }
    }
  }

  /** Growth leaves the own tables where they are, if they are all there or no table can appear. */
  lemma GrownOwn(m: Memory, m': Memory, r: nat, free: set<nat>, free': set<nat>, touched: set<nat>)
    requires Grown(m, m', r, free, free', touched) && (free == {} || forall p :: p in Own() ==> Node(m, r, p).Some?)
    ensures OwnFrames(m', r) == OwnFrames(m, r)
  {
    OwnDepth();
    SameFrames(m', r, m, r, Own());
  }

  lemma FirstTaken(frames: seq<nat>, m: Memory, r: nat, free: set<nat>, free': set<nat>)
    requires DataFrames(frames, m, r, free, free')
    ensures frames == [] || frames[0] in free
  {}

  lemma DataWider(frames: seq<nat>, m: Memory, r: nat, free0: set<nat>, free: set<nat>, free': set<nat>)
    requires DataFrames(frames, m, r, free, free') && free <= free0
    ensures DataFrames(frames, m, r, free0, free')
  {}

  /** The stack of a new root: one with all its own tables, or one for which the last frame was used up. */
  method AddStack(pm: PageManager, n: nat) returns (ok: bool, ghost stack: seq<nat>)
    requires pm.System() && n in pm.roots && n != pm.pml4 && (n in pm.full || pm.Free() == {})
    requires n in pm.full ==> Node(pm.mem, pm.pml4, STACK).None?
    requires n in pm.full ==> forall l: Loc :: l.Depth() <= 3 && l !in Own() ==>
               Node(pm.mem, n, l) == Node(pm.mem, pm.pml4, l)
    modifies pm`mem, pm`pml4, pm.mm.bitmap.buffer
    ensures pm.System() && pm.pml4 == old(pm.pml4)
    ensures ok <==> |old(pm.Free())| >= 17
    ensures n in pm.full ==> forall s :: s in pm.roots && s != n ==> Untouched(old(pm.mem), pm.mem, s)
    ensures ok ==> StackMapped(old(pm.mem), pm.mem, n, stack)
    ensures ok ==> forall s :: s in pm.roots ==> DataFrames(stack, pm.mem, s, old(pm.Free()), pm.Free())
    ensures !ok ==> pm.Free() == {} && OwnFrames(pm.mem, n) == OwnFrames(old(pm.mem), n)
  {
    hide PageManager.Free, PageManager.Frames, Sys, Walk, Own, OwnFrames, Isolated, StillApart, Untouched, Seen,
         DataFrames, Grown, TablesNeeded, StackMapped, RangeFrames, NewOnly, RangePath;
    StackPageCount();
    ghost var m0, free0, k := pm.mem, pm.Free(), pm.pml4;
    if n in pm.full {
      CompleteStack(pm.mem, pm.Free(), pm.mm.Total(), k, pm.roots, pm.full, n);
      StackGranted(pm.mem, n, |free0|);
    } else {
      NeverGranted(pm.mem, n);
    }
    ghost var done;
    ok, stack, done := pm.AllocateVirtualForProcess(n, USER_STACK_BASE, USER_STACK_SIZE, Flags(true, true, true));
    GrownOwn(m0, pm.mem, n, free0, pm.Free(), RangeFrames(m0, n, USER_STACK_BASE, 16));
    if n !in pm.full {
      FirstTaken(stack, pm.mem, n, free0, pm.Free());
      assert Admits(m0, n, pm.roots, USER_STACK_BASE, done);
    }
    if ok {
      StackTables(m0, n);
      assert stack[..16] == stack;
      StackBacked(m0, pm.mem, n, stack);
    }
  }

  lemma NeverGranted(m: Memory, r: nat)
    ensures !Granted(m, r, USER_STACK_BASE, 16, 0)
  {}

  /** A complete root that shares everything but its own tables with the kernel. */
  lemma CompleteStack(m: Memory, free: set<nat>, total: nat, k: nat, roots: set<nat>, full: set<nat>, n: nat)
    requires Sys(m, free, total, k, roots, full) && n in full && Node(m, k, STACK).None?
    requires forall l: Loc :: l.Depth() <= 3 && l !in Own() ==> Node(m, n, l) == Node(m, k, l)
    ensures Node(m, n, STACK).None? && forall p :: p in Own() ==> Node(m, n, p).Some?
    ensures L0 in Own() && L01 in Own()
    ensures forall s :: s in roots && s != n ==> Isolated(m, full, n, s, USER_STACK_BASE, 16)
  {
    hide RootOk, SameSpot, Private, Isolated;
    PtNotOwn();
    forall s | s in roots && s != n ensures Isolated(m, full, n, s, USER_STACK_BASE, 16) {
      StackIsolated(m, full, k, n, s);
    }
  }

  /** The page-table root of a new app task with its 64 KB user stack, and what is left of both if it fails. */
  method CreateAppMemory(pm: PageManager) returns (cr3: nat, ghost stack: seq<nat>)
    requires pm.System()
    requires forall p :: p in Own() ==> Node(pm.mem, pm.pml4, p).Some?
    requires Node(pm.mem, pm.pml4, STACK).None?   // still a 2 MB page in the kernel
    modifies pm`mem, pm`pml4, pm`roots, pm`full, pm.mm.bitmap.buffer
    ensures pm.Frames() && pm.pml4 == old(pm.pml4)
    ensures cr3 == 0 <==> |old(pm.Free())| < 21
    // four frames or more, or none: nobody else notices, and a failure leaves just the four frames of the tables free
    ensures |old(pm.Free())| !in {1, 2, 3} ==>
              pm.System() && pm.roots == if cr3 == 0 then old(pm.roots) else old(pm.roots) + {cr3}
    ensures |old(pm.Free())| !in {1, 2, 3} ==> forall s, q: Page :: s in old(pm.roots) && q.Valid() ==>
              Walk(pm.mem, s, q) == Walk(old(pm.mem), s, q)
    ensures 4 <= |old(pm.Free())| < 21 ==> pm.Free() <= old(pm.Free()) && |pm.Free()| == 4
    // fewer: tables the kernel still uses are left free
    ensures 1 <= |old(pm.Free())| <= 3 ==>
              pm.Free() == old(pm.Free()) +
                      FramesAt(old(pm.mem), pm.pml4, Own() - Copied(old(pm.mem), pm.pml4, |old(pm.Free())|))
    // success: the kernel's translations, and sixteen fresh zeroed frames for the stack
    ensures cr3 != 0 ==> |stack| == 16 && forall s :: s in pm.roots ==>
              DataFrames(stack, pm.mem, s, old(pm.Free()), pm.Free())
    ensures cr3 != 0 ==> forall q: Page :: q.Valid() ==>
              Walk(pm.mem, cr3, q) == if OnStack(q) then To(stack[q.d - 496], true, true)
                   else Walk(old(pm.mem), pm.pml4, q)
  {
    hide PageManager.Free, PageManager.Frames, Sys, Walk, Own, OwnFrames, FramesAt, StillApart, Untouched, DataFrames,
         TornDown, Copied;
    stack := [];
    KernelTable(pm.mem, pm.Free(), pm.mm.Total(), pm.pml4, pm.roots, pm.full);
    ghost var m0, free0, k, others := pm.mem, pm.Free(), pm.pml4, pm.roots;
    ghost var own;
    cr3, own := pm.CreateProcessPageTable();
    if cr3 == 0 {
      return;
    }
    ghost var m1, free1, n := pm.mem, pm.Free(), cr3;
    CreatedFor(m0, m1, free0, free1, k, others, n, own);
    var ok;
    ok, stack := AddStack(pm, cr3);
    ghost var m2, free2 := pm.mem, pm.Free();
    if !ok {
      pm.FreeTwice(cr3);
      cr3 := 0;
    } else {
      forall s | s in pm.roots ensures DataFrames(stack, m2, s, free0, free2) {
        DataWider(stack, m2, s, free0, free1, free2);
      }
      StackStands(m0, m1, m2, k, n, stack);
    }
    if |free0| >= 4 {
      forall s, q: Page | s in others && q.Valid() ensures Walk(pm.mem, s, q) == Walk(m0, s, q) {
        SeenThrough(m0, m1, m2, s, q);
        if !ok { SeenThrough(m0, m2, pm.mem, s, q); }
      }
    }
  }

  /** A new root by the number of free frames: complete with four or more, otherwise the last frame is gone. */
  lemma CreatedFor(m0: Memory, m: Memory, free0: set<nat>, free: set<nat>, k: nat, roots: set<nat>, n: nat,
                   own: set<Loc>)
    requires Created(m0, m, free0, free, k, roots, n, own) && own == Copied(m0, k, |free0|) && k in roots
    requires Node(m0, k, STACK).None? && forall p :: p in Own() ==> Node(m0, k, p).Some?
    ensures |free0| >= 4 ==> own == Own() && Node(m, k, STACK).None? && |free| == |free0| - 4 && |OwnFrames(m, n)| == 4
    ensures |free0| < 4 ==> own != Own() && free == {}
    ensures free + OwnFrames(m, n) == free0 + FramesAt(m0, k, Own() - own)
    ensures |free0| >= 4 ==> OwnFrames(m, n) <= free0
    ensures free <= free0
  {
    hide Own, Walk, FramesAt, Copied;
    assert free0 != {} by { assert n in free0; }
    CopiedCount(m0, k, |free0|);
    PtNotOwn();
    assert Untouched(m0, m, k);
    ShortCopy(m0, m, free0, free, k, roots, n, own);
    if own == Own() { assert free0 == free + FramesAt(m, n, own); }
  }

  /** Every frame is used for a copy until all four are made. */
  lemma CopiedCount(m: Memory, k: nat, count: nat)
    requires count > 0 && forall p :: p in Own() ==> Node(m, k, p).Some?
    ensures if count < 4 then |Copied(m, k, count)| == count && Copied(m, k, count) != Own()
            else Copied(m, k, count) == Own() && |Own()| == 4
  {
    CopiedAll(m, k, count);
    CopiedIs(m, k, count);
    OwnPlaces();
    OwnCount(Own());
  }

  lemma StackStands(m0: Memory, m1: Memory, m2: Memory, k: nat, n: nat, stack: seq<nat>)
    requires StackMapped(m1, m2, n, stack) && forall q: Page :: q.Valid() ==> Walk(m1, n, q) == Walk(m0, k, q)
    ensures forall q: Page :: q.Valid() ==>
              Walk(m2, n, q) == if OnStack(q) then To(stack[q.d - 496], true, true) else Walk(m0, k, q)
  {
    hide Walk;
  }

  lemma SeenThrough(m0: Memory, m1: Memory, m2: Memory, s: nat, q: Page)
    requires Untouched(m0, m1, s) && Untouched(m1, m2, s) && q.Valid()
    ensures Walk(m2, s, q) == Walk(m0, s, q) && Untouched(m0, m2, s)
  {}

  lemma PtNotOwn()
    ensures PtLoc(Page(0, 1, 383, 0)).Depth() == 3 && PtLoc(Page(0, 1, 383, 0)) !in Own()
  {}
}

/** The page manager: mapping pages into the tree of tables, over the frame allocator. */
module Paging {
  import opened Prelude
  import opened MemoryManagement
  import opened PageTables
  import opened PageTree
  import opened PageSteps
  import opened PageBoot
  import opened ProcessTrees
  import opened SharedTrees

  /** The places of the three tables below the root that a page's walk passes. */
  function Path(q: Page): set<Loc> { {PdpLoc(q), PdLoc(q), PtLoc(q)} }

  /** The places among `ls` that have no table. */
  function MissingIn(m: Memory, root: nat, ls: set<Loc>): set<Loc> {
    set l | l in ls && Node(m, root, l).None?
  }

  /** The tables a mapping of q would have to create. */
  function Missing(m: Memory, root: nat, q: Page): set<Loc> {
    MissingIn(m, root, Path(q))
  }

  function One(b: bool): nat { if b then 1 else 0 }

  /** The frames of the tables a page's walk passes. */
  ghost function PathFrames(m: Memory, root: nat, q: Page): set<nat> {
    set l | l in Path(q) + {Top} && Node(m, root, l).Some? :: Node(m, root, l).value
  }

  lemma OnPath(m: Memory, root: nat, q: Page, l: Loc)
    requires l in Path(q) + {Top} && Node(m, root, l).Some?
    ensures Node(m, root, l).value in PathFrames(m, root, q)
  {}

  /** The places in `gained` got tables, no other place did. */
  ghost predicate Gained(m: Memory, m': Memory, root: nat, gained: set<Loc>) {
    forall l: Loc :: l.Depth() <= 3 ==> (Node(m', root, l).None? <==> Node(m, root, l).None? && l !in gained)
  }

  /** Tables appeared at places of `ls` only. */
  ghost predicate NewOnly(m: Memory, m': Memory, root: nat, ls: set<Loc>) {
    forall l: Loc :: l.Depth() <= 3 && Node(m', root, l).Some? && Node(m, root, l).None? ==> l in ls
  }

  /** What a successful `EnsureEntry` or split at (p, i) of table t achieves. */
  ghost predicate Ensured(m: Memory, m': Memory, root: nat, free: set<nat>, free': set<nat>, p: Loc, i: nat, t: nat) {
    && Quiet(m, m', root, free, free', {t})
    && Gained(m, m', root, {Under(p, i)})
    && |free'| == |free| - One(Node(m, root, Under(p, i)).None?)
  }

  lemma EnsuredNew(m: Memory, root: nat, free: set<nat>, p: Loc, i: nat, f: nat, user: bool)
    requires Inv(m, root) && InUse(m, root, free) && f in free && 0 < f < FRAME_BITS
    requires p.Depth() <= 2 && Has(m, root, p) && i < 512 && !TableAt(m, root, p)[i].present
    ensures var t, e := Node(m, root, p).value, TableAt(m, root, p)[i];
            t != f &&
            var m' := Poke(m[f := ZERO_TABLE], t, i, NewLink(e, f, user));
            && Ensured(m, m', root, free, free - {f}, p, i, t)
            && Node(m', root, Under(p, i)) == Some(f)
            && (user && AllUser(m, root, p) ==> AllUser(m', root, Under(p, i)))
  {
    EnsureNewStep(m, root, free, p, i, f, user);
  }

  lemma EnsuredSplit(m: Memory, root: nat, free: set<nat>, p: Loc, i: nat, f: nat, user: bool)
    requires Inv(m, root) && InUse(m, root, free) && f in free && 0 < f < FRAME_BITS
    requires p.Depth() == 2 && Has(m, root, p) && i < 512
    requires TableAt(m, root, p)[i].present && TableAt(m, root, p)[i].huge
    ensures var t, e := Node(m, root, p).value, TableAt(m, root, p)[i];
            t != f &&
            var m' := Poke(m[f := SplitTable(e)], t, i, SplitLink(e, f, user));
            Ensured(m, m', root, free, free - {f}, p, i, t) && Node(m', root, Under(p, i)) == Some(f)
  {
    SplitStep(m, root, free, p, i, f, user);
  }

  lemma EnsuredUser(m: Memory, root: nat, free: set<nat>, p: Loc, i: nat, user: bool)
    requires Inv(m, root) && InUse(m, root, free)
    requires p.Depth() <= 2 && Has(m, root, p) && i < 512 && Link(TableAt(m, root, p)[i])
    ensures var m' := if user then WithUserBit(m, root, p, i) else m;
            && Ensured(m, m', root, free, free, p, i, Node(m, root, p).value)
            && Node(m', root, Under(p, i)) == Node(m, root, Under(p, i))
            && (user && AllUser(m, root, p) ==> AllUser(m', root, Under(p, i)))
  {
    if user { EnsureUserStep(m, root, free, p, i); } else { QuietRefl(m, root, free, {Node(m, root, p).value}); }
  }

  lemma EnsuredTwice(m: Memory, m1: Memory, m2: Memory, root: nat, free: set<nat>, free1: set<nat>, free2: set<nat>,
                     p: Loc, i: nat, t: nat)
    requires Inv(m, root) && InUse(m, root, free) && p.Depth() <= 2
    requires Ensured(m, m1, root, free, free1, p, i, t) && Ensured(m1, m2, root, free1, free2, p, i, t)
    ensures Ensured(m, m2, root, free, free2, p, i, t)
  {
    QuietTrans(m, m1, m2, root, free, free1, free2, {t}, {t});
    assert {t} + {t} == {t};
  }

  /** Part of the way to page q: the places `gained` have their tables, at the price of the missing ones. */
  ghost predicate Progress(m0: Memory, m: Memory, root: nat, free0: set<nat>, free: set<nat>, q: Page,
                           gained: set<Loc>) {
    && Quiet(m0, m, root, free0, free, PathFrames(m0, root, q))
    && Gained(m0, m, root, gained)
    && |free| == |free0| - |MissingIn(m0, root, gained)|
  }

  lemma ProgressStart(m: Memory, root: nat, free: set<nat>, q: Page)
    requires Inv(m, root) && InUse(m, root, free)
    ensures Progress(m, m, root, free, free, q, {})
  {
    QuietRefl(m, root, free, PathFrames(m, root, q));
    assert MissingIn(m, root, {}) == {};
  }

  lemma OneMoreMissing(m: Memory, root: nat, gained: set<Loc>, x: Loc)
    requires x !in gained
    ensures |MissingIn(m, root, gained + {x})| == |MissingIn(m, root, gained)| + One(Node(m, root, x).None?)
  {
    assert MissingIn(m, root, gained + {x}) == MissingIn(m, root, gained) + if Node(m, root, x).None? then {x} else {};
  }

  lemma ProgressStep(m0: Memory, m: Memory, m': Memory, root: nat, free0: set<nat>, free: set<nat>, free': set<nat>,
                     q: Page, gained: set<Loc>, p: Loc, i: nat, t: nat)
    requires Inv(m0, root) && InUse(m0, root, free0)
    requires Progress(m0, m, root, free0, free, q, gained)
    requires p in Path(q) + {Top} && p.Depth() <= 2 && Under(p, i) !in gained && Node(m, root, p) == Some(t)
    requires Ensured(m, m', root, free, free', p, i, t)
    ensures Progress(m0, m', root, free0, free', q, gained + {Under(p, i)})
  {
    var x, frames := Under(p, i), PathFrames(m0, root, q);
    QuietTrans(m0, m, m', root, free0, free, free', frames, {t});
    if Node(m0, root, p).Some? { OnPath(m0, root, q, p); }
    assert t in frames + free0;
    GrownWider(m0, m', root, free0, free', frames + {t}, frames);
    OneMoreMissing(m0, root, gained, x);
  }

  /** Where progress stops for want of a frame, there were not enough frames for the whole path. */
  lemma ProgressStuck(m0: Memory, m: Memory, root: nat, free0: set<nat>, q: Page, gained: set<Loc>, x: Loc)
    requires Progress(m0, m, root, free0, {}, q, gained)
    requires gained <= Path(q) && x in Path(q) && x !in gained && Node(m, root, x).None? && x.Depth() <= 3
    ensures |free0| < |Missing(m0, root, q)| && NewOnly(m0, m, root, Path(q))
  {
    OneMoreMissing(m0, root, gained, x);
    assert MissingIn(m0, root, gained + {x}) <= Missing(m0, root, q);
    SubsetSize(MissingIn(m0, root, gained + {x}), Missing(m0, root, q));
  }

  /** A new root n: it translates every address as the kernel root k did, has its own tables at the places `done`, taken
      from the free frames, and shares all its other tables with the kernel; no other root noticed. */
  ghost predicate Created(m0: Memory, m: Memory, free0: set<nat>, free: set<nat>, k: nat, roots: set<nat>, n: nat,
                          done: set<Loc>) {
    && n in free0 && n !in roots && done <= Own() && Top in done
    && (forall q: Page :: q.Valid() ==> Walk(m, n, q) == Walk(m0, k, q))
    && (forall s :: s in roots ==> Untouched(m0, m, s))
    && (forall l: Loc :: l.Depth() <= 3 && l !in done ==> Node(m, n, l) == Node(m, k, l))
    && free == free0 - FramesAt(m, n, done) && |free| == |free0| - |done| && FramesAt(m, n, done) <= free0
  }

  /** The tables that `count` free frames are enough to copy, in the order in which the code copies them. */
  ghost function Copied(m: Memory, k: nat, count: nat): set<Loc> {
    if count < 2 || Node(m, k, L0).None? then {Top}
    else
      var first := if count >= 3 && Node(m, k, L00).Some? then {Top, L0, L00} else {Top, L0};
      if count > |first| && Node(m, k, L01).Some? then first + {L01} else first
  }

  class PageManager {
    const mm: MemoryManager
    var mem: Memory
    var pml4: nat
    ghost var roots: set<nat>   // the kernel root and the process roots handed out
    ghost var full: set<nat>    // the process roots that were copied completely

    constructor (mm: MemoryManager)
      requires mm.Valid()
      ensures this.mm == mm && pml4 == 0
    {
      this.mm := mm;
      mem := map[];
      pml4 := 0;
      roots, full := {}, {};
    }

    ghost function Free(): set<nat>
      reads this, mm, mm.bitmap, mm.bitmap.buffer
    {
      mm.FreeSet()
    }

    ghost predicate Frames()
      reads this, mm, mm.bitmap, mm.bitmap.buffer
    {
      mm.Valid() && mm.Total() <= FRAME_BITS
    }

    /** The active tree satisfies its invariant and none of its tables is a free frame. */
    ghost predicate Ready()
      reads this, mm, mm.bitmap, mm.bitmap.buffer
    {
      Frames() && Inv(mem, pml4) && InUse(mem, pml4, Free())
    }

    /** All roots together: see `Sys`. The active root is the kernel's. */
    ghost predicate System()
      reads this, mm, mm.bitmap, mm.bitmap.buffer
    {
      Frames() && Sys(mem, Free(), mm.Total(), pml4, roots, full)
    }

    /** A zeroed frame from the allocator. */
    method AllocateTable() returns (r: Option<nat>)
      requires Frames()
      modifies this`mem, mm.bitmap.buffer
      ensures Frames()
      ensures r.None? <==> old(Free()) == {}
      ensures r.None? ==> mem == old(mem) && Free() == old(Free())
      ensures r.Some? ==> r.value in old(Free()) && 0 < r.value < FRAME_BITS && Free() == old(Free()) - {r.value}
      ensures r.Some? ==> r.value < mm.Total() && mem == old(mem)[r.value := ZERO_TABLE]
    {
      r := mm.AllocateFrame();
      if r.Some? {
        mem := mem[r.value := ZERO_TABLE];
      }
    }

    /** Builds the boot tables. The source stops only if the first table cannot be had, and uses the other 65
        unchecked. */
    method Initialize() returns (ghost pdpFrame: nat, ghost directories: seq<nat>)
      requires Frames() && |Free()| >= 66
      modifies this, mm.bitmap.buffer
      ensures Ready() && System() && roots == {pml4} && full == {}
      ensures Built(mem, pml4, pdpFrame, directories) && |directories| == 64
      ensures |Free()| == |old(Free())| - 66 && Free() <= old(Free())
      ensures forall q: Page :: q.Valid() ==>
                Walk(mem, pml4, q) == if q.Number() < 64 * 0x40000 then To(q.Number(), true, true) else Fault
    {
      hide MemoryManager.Valid, MemoryManager.FreeSet, Built, BootInUse, Inv, Walk;
      var root := AllocateTable();
      pml4 := root.value;
      ghost var m1 := mem;
      assert |Free()| == |old(Free())| - 1;
      var pdp := AllocateTable();
      BuildFirst(m1, pml4, pdp.value);
      mem := Poke(mem, pml4, 0, Dir(pdp.value));
      ghost var pds: seq<nat> := [];
      BootInUseFirst(pml4, pdp.value, Free(), mm.Total());
      var i := 0;
      while i < 64
        invariant i <= 64 && |pds| == i && Frames() && pml4 == root.value && |Free()| <= |old(Free())|
        invariant |Free()| == |old(Free())| - 2 - i && Free() <= old(Free())
        invariant Built(mem, pml4, pdp.value, pds) && BootInUse(pml4, pdp.value, pds, Free(), mm.Total())
      {
        var pd := AddDirectory(pdp.value, pds, i);
        pds := pds + [pd];
        i := i + 1;
      }
      pdpFrame, directories := pdp.value, pds;
      BootTree(mem, pml4, pdp.value, pds);
      roots, full := {pml4}, {};
      BootSystem(mem, Free(), mm.Total(), pml4, pdp.value, pds) by { FreeManaged(); }
    }

    lemma FreeManaged()
      requires Frames()
      ensures forall f :: f in Free() ==> f < mm.Total()
    {}

    /** One round of `Initialize`: a page directory for gigabyte i, linked and filled. */
    method AddDirectory(pdp: nat, ghost pds: seq<nat>, i: nat) returns (pd: nat)
      requires Frames() && Free() != {} && i == |pds| < 64
      requires Built(mem, pml4, pdp, pds) && BootInUse(pml4, pdp, pds, Free(), mm.Total())
      modifies this`mem, mm.bitmap.buffer
      ensures Frames() && Free() <= old(Free()) && |Free()| == |old(Free())| - 1
      ensures Built(mem, pml4, pdp, pds + [pd]) && BootInUse(pml4, pdp, pds + [pd], Free(), mm.Total())
    {
      hide MemoryManager.Valid, MemoryManager.FreeSet, Built, BootInUse;
      BuiltHasPdp(mem, pml4, pdp, pds);
      var r := AllocateTable();
      pd := r.value;
      BuildNext(old(mem), pml4, pdp, pds, old(Free()), mm.Total(), pd);
      BootApart(pml4, pdp, pds, old(Free()), mm.Total(), pd);
      mem := Poke(mem, pdp, i, Dir(pd));
      FillDirectory(pd, i);
    }

    /** The 512 two-megabyte entries of gigabyte i. */
    method FillDirectory(f: nat, i: nat)
      requires f in mem && mem[f] == ZERO_TABLE && i < 64
      modifies this`mem
      ensures mem == old(mem)[f := Directory(i)]
    {
      var j := 0;
      while j < 512
        invariant j <= 512 && f in mem && mem == old(mem)[f := mem[f]]
        invariant forall k :: 0 <= k < 512 ==> mem[f][k] == if k < j then Identity2M(i, k) else ZERO_ENTRY
      {
        var physical := i * 1024 * 1024 * 1024 + j * 2 * 1024 * 1024;
        DirectoryAddress(i, j);
        mem := Poke(mem, f, j,
            WithFrame(mem[f][j], physical / 0x1000).(present := true, rw := true, huge := true, us := true));
        j := j + 1;
      }
      assert mem[f] == Directory(i);
    }

    /** The table below entry i of table t, created if the entry is absent. */
    method EnsureEntry(ghost p: Loc, t: nat, i: nat, user: bool) returns (child: Option<nat>)
      requires Ready() && p.Depth() <= 2 && Node(mem, pml4, p) == Some(t) && t in mem && i < 512
      requires !(mem[t][i].present && mem[t][i].huge)
      requires user ==> AllUser(mem, pml4, p)
      modifies this`mem, mm.bitmap.buffer
      ensures Frames()
      ensures child.None? <==> Node(old(mem), pml4, Under(p, i)).None? && old(Free()) == {}
      ensures child.None? ==> mem == old(mem) && Free() == old(Free())
      ensures child.Some? ==> Ensured(old(mem), mem, pml4, old(Free()), Free(), p, i, t)
      ensures child.Some? ==> Node(mem, pml4, Under(p, i)) == child && (user ==> AllUser(mem, pml4, Under(p, i)))
    {
      hide MemoryManager.Valid, MemoryManager.FreeSet, Inv, InUse, Ensured;
      var e := mem[t][i];
      assert Has(mem, pml4, p) && TableAt(mem, pml4, p)[i] == e;
      if !e.present {
        var f := AllocateTable();
        if f.None? {
          return None;
        }
        EnsuredNew(old(mem), pml4, old(Free()), p, i, f.value, user);
        mem := Poke(mem, t, i, NewLink(e, f.value, user));
        return f;
      }
      EnsuredUser(mem, pml4, Free(), p, i, user);
      if user {
        mem := Poke(mem, t, i, e.(us := true));
      }
      return Some(e.frame);
    }

    /** The entries of the page table that takes over a 2 MB entry, written one by one. */
    method FillSplitTable(f: nat, e: Entry)
      requires f in mem && mem[f] == ZERO_TABLE
      modifies this`mem
      ensures mem == old(mem)[f := SplitTable(e)]
    {
      var k := 0;
      while k < 512
        invariant k <= 512 && f in mem && mem == old(mem)[f := mem[f]]
        invariant forall j :: 0 <= j < 512 ==> mem[f][j] == if j < k then SplitEntry(e, j) else ZERO_ENTRY
      {
        var x := WithFrame(mem[f][k], e.frame + k);
        x := x.(rw := e.rw, us := e.us, attr := e.attr.(avail2 := 0, nx := false));
        x := x.(huge := false, present := true);
        mem := Poke(mem, f, k, x);
        k := k + 1;
      }
      assert mem[f] == SplitTable(e);
    }

    /** Replaces the 2 MB entry i of page directory t by a page table with the same 512 translations. */
    method SplitHugePage(ghost p: Loc, t: nat, i: nat, user: bool) returns (ok: bool)
      requires Ready() && p.Depth() == 2 && Node(mem, pml4, p) == Some(t) && t in mem && i < 512
      requires mem[t][i].present && mem[t][i].huge
      modifies this`mem, mm.bitmap.buffer
      ensures Frames() && Node(old(mem), pml4, Under(p, i)).None?
      ensures ok <==> old(Free()) != {}
      ensures !ok ==> mem == old(mem) && Free() == old(Free())
      ensures ok ==> Ensured(old(mem), mem, pml4, old(Free()), Free(), p, i, t) && t in mem && Link(mem[t][i])
    {
      hide MemoryManager.Valid, MemoryManager.FreeSet, Inv, InUse, Ensured;
      var e := mem[t][i];
      assert Has(mem, pml4, p) && TableAt(mem, pml4, p)[i] == e;
      var f := AllocateTable();
      if f.None? {
        return false;
      }
      EnsuredSplit(old(mem), pml4, old(Free()), p, i, f.value, user);
      FillSplitTable(f.value, e);
      assert mem == old(mem)[f.value := SplitTable(e)];
      mem := Poke(mem, t, i, SplitLink(e, f.value, user));
      return true;
    }

    /** The page table below entry i of page directory t, splitting a 2 MB page that is in the way. */
    method EnsurePageTable(ghost p: Loc, t: nat, i: nat, user: bool) returns (child: Option<nat>)
      requires Ready() && p.Depth() == 2 && Node(mem, pml4, p) == Some(t) && t in mem && i < 512
      requires user ==> AllUser(mem, pml4, p)
      modifies this`mem, mm.bitmap.buffer
      ensures Frames()
      ensures child.None? <==> Node(old(mem), pml4, Under(p, i)).None? && old(Free()) == {}
      ensures child.None? ==> mem == old(mem) && Free() == old(Free())
      ensures child.Some? ==> Ensured(old(mem), mem, pml4, old(Free()), Free(), p, i, t)
      ensures child.Some? ==> Node(mem, pml4, Under(p, i)) == child && (user ==> AllUser(mem, pml4, Under(p, i)))
    {
      hide MemoryManager.Valid, MemoryManager.FreeSet, Inv, InUse;
      if mem[t][i].present && mem[t][i].huge {
        var ok := SplitHugePage(p, t, i, user);
        if !ok {
          return None;
        }
        ghost var m1, free1 := mem, Free();
        assert Node(mem, pml4, p) == Some(t);
        assert Has(old(mem), pml4, p);
        assert user ==> AllUser(mem, pml4, p);
        child := EnsureEntry(p, t, i, user);
        EnsuredTwice(old(mem), m1, mem, pml4, old(Free()), free1, Free(), p, i, t);
      } else {
        child := EnsureEntry(p, t, i, user);
      }
    }

    /** Walks down to the page table of q, creating what is missing. */
    method ReachPageTable(q: Page, user: bool) returns (pt: Option<nat>)
      requires Ready() && q.Valid()
      modifies this`mem, mm.bitmap.buffer
      ensures Frames()
      ensures Quiet(old(mem), mem, pml4, old(Free()), Free(), PathFrames(old(mem), pml4, q))
      ensures pt.Some? <==> |old(Free())| >= |Missing(old(mem), pml4, q)|
      ensures pt.None? ==> Free() == {}
      ensures NewOnly(old(mem), mem, pml4, Path(q))
      ensures pt.Some? ==> Progress(old(mem), mem, pml4, old(Free()), Free(), q, Path(q))
      ensures pt.Some? ==> Node(mem, pml4, PtLoc(q)) == pt && (user ==> AllUser(mem, pml4, PtLoc(q)))
    {
      hide MemoryManager.Valid, MemoryManager.FreeSet, Inv, InUse, Ensured, Quiet, Missing, MissingIn, PathFrames,
           NewOnly;
      ghost var m0, free0 := mem, Free();
      ProgressStart(m0, pml4, free0, q);
      RootHas(mem, pml4);
      var pdp := EnsureEntry(Top, pml4, q.a, user);
      if pdp.None? {
        ProgressStuck(m0, mem, pml4, free0, q, {}, PdpLoc(q));
        return None;
      }
      ghost var m1, free1 := mem, Free();
      ProgressStep(m0, m0, m1, pml4, free0, free0, free1, q, {}, Top, q.a, pml4);
      ProgressReady(m0, m1, pml4, free0, free1, q, {} + {PdpLoc(q)}, PdpLoc(q));
      NoHugeAbove(mem, pml4, PdpLoc(q), q.b);
      var pd := EnsureEntry(PdpLoc(q), pdp.value, q.b, user);
      if pd.None? {
        ProgressStuck(m0, mem, pml4, free0, q, {} + {PdpLoc(q)}, PdLoc(q));
        return None;
      }
      ghost var m2, free2 := mem, Free();
      ProgressStep(m0, m1, m2, pml4, free0, free1, free2, q, {} + {PdpLoc(q)}, PdpLoc(q), q.b, pdp.value);
      ProgressReady(m0, m2, pml4, free0, free2, q, {} + {PdpLoc(q)} + {PdLoc(q)}, PdLoc(q));
      pt := EnsurePageTable(PdLoc(q), pd.value, q.c, user);
      if pt.None? {
        ProgressStuck(m0, mem, pml4, free0, q, {} + {PdpLoc(q)} + {PdLoc(q)}, PtLoc(q));
        return None;
      }
      ProgressStep(m0, m2, mem, pml4, free0, free2, Free(), q, {} + {PdpLoc(q)} + {PdLoc(q)}, PdLoc(q), q.c, pd.value);
      assert {} + {PdpLoc(q)} + {PdLoc(q)} + {PtLoc(q)} == Path(q);
      ProgressEnough(m0, mem, pml4, free0, Free(), q);
    }

    // ---------- process roots ----------

    /** A copy of one table in a fresh frame, entry by entry. */
    method CopyPageTable(src: nat) returns (r: Option<nat>)
      requires Frames() && src in mem && src !in Free()
      modifies this`mem, mm.bitmap.buffer
      ensures Frames()
      ensures r.None? <==> old(Free()) == {}
      ensures r.None? ==> mem == old(mem) && Free() == old(Free())
      ensures r.Some? ==> r.value in old(Free()) && 0 < r.value < FRAME_BITS && Free() == old(Free()) - {r.value}
      ensures r.Some? ==> mem == old(mem)[r.value := old(mem)[src]]
    {
      hide MemoryManager.Valid, MemoryManager.FreeSet;
      r := AllocateTable();
      if r.None? {
        return;
      }
      var f := r.value;
      var i := 0;
      while i < 512
        invariant i <= 512 && f in mem && mem == old(mem)[f := mem[f]] && mem[f][..i] == old(mem)[src][..i]
        invariant Frames() && Free() == old(Free()) - {f}
      {
        mem := Poke(mem, f, i, mem[src][i]);
        i := i + 1;
      }
      assert mem[f][..512] == mem[f] && old(mem)[src][..512] == old(mem)[src];
    }

    /** Gives root n its own copy of the table below entry j of its own table t, if there is one and a frame is left. */
    method CopyChild(ghost m0: Memory, ghost free0: set<nat>, n: nat, ghost done: set<Loc>, ghost p: Loc, t: nat,
                     j: nat)
      returns (child: Option<nat>)
      requires Frames() && Copying(m0, mem, free0, Free(), mm.Total(), pml4, roots, full, n, done) && pml4 in roots
               && n !in full
      requires p in done && p.Depth() <= 1 && Node(mem, n, p) == Some(t) && j < 512 && Under(p, j) in Own()
               && Under(p, j) !in done
      modifies this`mem, mm.bitmap.buffer
      ensures Frames()
      ensures child.Some? <==> Node(m0, pml4, Under(p, j)).Some? && old(Free()) != {}
      ensures child.None? ==> mem == old(mem) && Free() == old(Free())
      ensures child.Some? ==> Node(mem, n, Under(p, j)) == child
      ensures forall l: Loc :: l.Depth() <= 3 && l != Under(p, j) ==> Node(mem, n, l) == Node(old(mem), n, l)
      ensures child.Some? ==> Copying(m0, mem, free0, Free(), mm.Total(), pml4, roots, full, n, done + {Under(p, j)})
    {
      hide MemoryManager.Valid, MemoryManager.FreeSet, Copying, Own;
      CopyingTable(m0, mem, free0, Free(), mm.Total(), pml4, roots, full, n, done, p, j);
      if !mem[t][j].present {
        return None;
      }
      ghost var m1, free1 := mem, Free();
      child := CopyPageTable(mem[t][j].frame);
      if child.None? {
        return;
      }
      CopyStep(m0, m1, free0, free1, mm.Total(), pml4, roots, full, n, done, p, j, child.value);
      mem := Poke(mem, t, j, WithFrame(mem[t][j], child.value));
    }

    /** A root for a new process: the kernel's tree with private copies of the tables that map the first 2 GB.
        Returns 0 when not even the root table can be had. */
    method CreateProcessPageTable() returns (cr3: nat, ghost done: set<Loc>)
      requires System()
      modifies this`mem, this`roots, this`full, mm.bitmap.buffer
      ensures System()
      ensures cr3 == 0 <==> old(Free()) == {}
      ensures cr3 == 0 ==> mem == old(mem) && Free() == old(Free()) && roots == old(roots) && full == old(full)
      ensures cr3 != 0 ==> Created(old(mem), mem, old(Free()), Free(), pml4, old(roots), cr3, done)
      ensures cr3 != 0 ==> done == Copied(old(mem), pml4, |old(Free())|) && (cr3 in full <==> done == Own())
      ensures cr3 != 0 ==> roots == old(roots) + {cr3} && full == if cr3 in full then old(full) + {cr3} else old(full)
      ensures cr3 != 0 ==>
                (cr3 in full <==> |old(Free())| >= 4 && forall p :: p in Own() ==> Node(old(mem), pml4, p).Some?)
    {
      hide MemoryManager.Valid, MemoryManager.FreeSet, Copying, Sys, Own, Created, Copied, Node;
      ghost var m0, free0 := mem, Free();
      KernelTable(m0, free0, mm.Total(), pml4, roots, full);
      var r := CopyPageTable(pml4);
      if r.None? {
        return 0, {};
      }
      cr3 := r.value;
      CopyStart(m0, free0, mm.Total(), pml4, roots, full, cr3);
      NewIsPartial(m0, free0, mm.Total(), pml4, roots, full, cr3);
      done := CopyOwnTables(m0, free0, cr3);
      CopiedAll(m0, pml4, |free0|);
      Finish(m0, free0, cr3, done);
      OwnPlaces();
      roots := roots + {cr3};
      if done == {Top, L0, L00, L01} { full := full + {cr3}; }
    }

    /** The copies below a new root: the first page-directory-pointer table and its first two page directories. */
    method CopyOwnTables(ghost m0: Memory, ghost free0: set<nat>, n: nat) returns (ghost done: set<Loc>)
      requires Frames() && Copying(m0, mem, free0, Free(), mm.Total(), pml4, roots, full, n, {Top}) && pml4 in roots
               && n !in full
      requires Node(mem, n, Top) == Some(n)
      modifies this`mem, mm.bitmap.buffer
      ensures Frames() && Copying(m0, mem, free0, Free(), mm.Total(), pml4, roots, full, n, done)
      ensures done == Copied(m0, pml4, |free0|) && Top in done
    {
      hide MemoryManager.Valid, MemoryManager.FreeSet, Copying, Own, Copied;
      OwnPlaces();
      CopyingCount(m0, mem, free0, Free(), mm.Total(), pml4, roots, full, n, {Top});
      done := {Top};
      var pdp := CopyChild(m0, free0, n, done, Top, n, 0);
      CopiedIs(m0, pml4, |free0|);
      if pdp.None? {
        return;
      }
      done := CopyDirectories(m0, free0, n, pdp.value);
    }

    method CopyDirectories(ghost m0: Memory, ghost free0: set<nat>, n: nat, pdp: nat) returns (ghost done: set<Loc>)
      requires Frames() && Copying(m0, mem, free0, Free(), mm.Total(), pml4, roots, full, n, {Top} + {L0})
               && pml4 in roots && n !in full
      requires Node(mem, n, L0) == Some(pdp) && Node(m0, pml4, L0).Some?
      modifies this`mem, mm.bitmap.buffer
      ensures Frames() && Copying(m0, mem, free0, Free(), mm.Total(), pml4, roots, full, n, done)
      ensures done == Copied(m0, pml4, |free0|) && Top in done
    {
      hide MemoryManager.Valid, MemoryManager.FreeSet, Copying, Own, Copied;
      OwnPlaces();
      done := {Top} + {L0};
      CopyingCount(m0, mem, free0, Free(), mm.Total(), pml4, roots, full, n, done);
      CopiedIs(m0, pml4, |free0|);
      var pd0 := CopyChild(m0, free0, n, done, L0, pdp, 0);
      if pd0.Some? {
        done := done + {L00};
        CopyingCount(m0, mem, free0, Free(), mm.Total(), pml4, roots, full, n, done);
      }
      var pd1 := CopyChild(m0, free0, n, done, L0, pdp, 1);
      if pd1.Some? {
        done := done + {L01};
      }
    }

    /** Gives a process root back: its own tables are freed, everything below them is left alone. */
    method FreeProcessPageTable(cr3: nat)
      requires System() && (cr3 == 0 || cr3 in roots)
      modifies this`mem, this`roots, this`full, mm.bitmap.buffer
      ensures Frames()
      ensures cr3 == 0 || cr3 == pml4 ==>
                mem == old(mem) && Free() == old(Free()) && roots == old(roots) && full == old(full)
      ensures cr3 != 0 && cr3 != pml4 ==>
                mem == TornDown(old(mem), cr3) && Free() == old(Free()) + OwnFrames(old(mem), cr3)
      ensures cr3 in old(full) ==> System() && roots == old(roots) - {cr3} && full == old(full) - {cr3}
      ensures cr3 in old(full) ==> forall s :: s in roots ==> Untouched(old(mem), mem, s)
      ensures cr3 in old(full) ==> StillApart(old(mem), mem, roots)
    {
      hide MemoryManager.Valid, MemoryManager.FreeSet, Sys, OwnFrames, StillApart, Untouched, TornDown;
      NotFull(mem, Free(), mm.Total(), pml4, roots, full);
      if cr3 == pml4 || cr3 == 0 {
        return;
      }
      ghost var m0, free0 := mem, Free();
      OwnFramesFound(mem, Free(), mm.Total(), pml4, roots, full, cr3);
      OwnFramesManaged(mem, Free(), mm.Total(), pml4, roots, full, cr3);
      FreeOwnTables(cr3);
      if cr3 in full {
        TornDownOwn(m0, free0, mm.Total(), pml4, roots, full, cr3);
        SysFree(m0, mem, free0, mm.Total(), pml4, roots, full, cr3);
      }
      roots, full := roots - {cr3}, full - {cr3};
    }

    /** The frees and writes of the teardown. */
    method FreeOwnTables(cr3: nat)
      requires Frames() && Removable(mem, cr3) && forall f :: f in Reached(mem, cr3) ==> 0 < f < mm.Total()
      modifies this`mem, mm.bitmap.buffer
      ensures Frames() && mem == TornDown(old(mem), cr3) && Free() == old(Free()) + Reached(old(mem), cr3)
    {
      hide MemoryManager.Valid, MemoryManager.FreeSet;
      assert cr3 in Reached(mem, cr3);
      if mem[cr3][0].present {
        var pdp := mem[cr3][0].frame;
        assert pdp in Reached(mem, cr3);
        assert mem[pdp][0].present ==> mem[pdp][0].frame in Reached(mem, cr3);
        assert mem[pdp][1].present ==> mem[pdp][1].frame in Reached(mem, cr3);
        FreeChild(pdp, 0);
        FreeChild(pdp, 1);
        FreeTable(pdp);
      }
      FreeTable(cr3);
    }

    /** A table's frame goes back to the allocator. */
    method FreeTable(f: nat)
      requires Frames() && 0 < f < mm.Total()
      modifies mm.bitmap.buffer
      ensures Frames() && Free() == old(Free()) + {f}
    {
      mm.FreeFrame(f);
    }

    /** A failed task creation gives its root back twice: once itself and once when it terminates the task. */
    method FreeTwice(cr3: nat)
      requires System() && cr3 in roots && cr3 != pml4
      modifies this`mem, this`roots, this`full, mm.bitmap.buffer
      ensures Frames() && mem == TornDown(old(mem), cr3) && Free() == old(Free()) + OwnFrames(old(mem), cr3)
      ensures cr3 in old(full) ==> System() && roots == old(roots) - {cr3} && full == old(full) - {cr3}
      ensures cr3 in old(full) ==> forall s :: s in roots ==> Untouched(old(mem), mem, s)
    {
      hide MemoryManager.Valid, MemoryManager.FreeSet, Sys, OwnFrames, StillApart, Untouched, TornDown, Reached;
      KernelTable(mem, Free(), mm.Total(), pml4, roots, full);
      OwnFramesFound(mem, Free(), mm.Total(), pml4, roots, full, cr3);
      OwnFramesManaged(mem, Free(), mm.Total(), pml4, roots, full, cr3);
      TornDownTwice(mem, cr3);
      FreeProcessPageTable(cr3);
      FreeOwnTables(cr3);
    }

    /** Frees the page directory below entry j of table t, if there is one, and clears the entry. */
    method FreeChild(t: nat, j: nat)
      requires Frames() && t in mem && j < 512
      requires mem[t][j].present ==> 0 < mem[t][j].frame < mm.Total()
      modifies this`mem, mm.bitmap.buffer
      ensures Frames() && mem == Poke(old(mem), t, j, Zap(old(mem)[t][j]))
      ensures Free() == old(Free()) + if old(mem)[t][j].present then {old(mem)[t][j].frame} else {}
    {
      hide MemoryManager.Valid, MemoryManager.FreeSet;
      if mem[t][j].present {
        FreeTable(mem[t][j].frame);
        mem := Poke(mem, t, j, ZERO_ENTRY);
      } else {
        assert mem[t][j := mem[t][j]] == mem[t];
        assert Poke(mem, t, j, mem[t][j]) == mem;
      }
    }

    /** Creating a process root and giving it back restores the bitmap exactly, if four frames were free. */
    method CreateAndFree() returns (cr3: nat)
      requires System() && |Free()| >= 4
      requires forall p :: p in Own() ==> Node(mem, pml4, p).Some?
      modifies this`mem, this`roots, this`full, mm.bitmap.buffer
      ensures System() && Free() == old(Free()) && roots == old(roots) && full == old(full)
      ensures forall s, q: Page :: s in roots && q.Valid() ==> Walk(mem, s, q) == Walk(old(mem), s, q)
    {
      hide MemoryManager.Valid, MemoryManager.FreeSet, Sys, Own, FramesAt, StillApart, Walk;
      NotFull(mem, Free(), mm.Total(), pml4, roots, full);
      ghost var done;
      cr3, done := CreateProcessPageTable();
      ghost var m1 := mem;
      FreeProcessPageTable(cr3);
      forall s, q: Page | s in roots && q.Valid() ensures Walk(mem, s, q) == Walk(old(mem), s, q) {
        assert Untouched(m1, mem, s) && Untouched(old(mem), m1, s);
      }
    }

    /** With one to three free frames the same two calls leave tables the kernel still uses among the free frames: those
        whose copies failed. With a single frame the kernel's first two gigabytes are gone at once. */
    method CreateAndFreeShort() returns (cr3: nat)
      requires System() && 1 <= |Free()| <= 3
      requires forall p :: p in Own() ==> Node(mem, pml4, p).Some?
      modifies this`mem, this`roots, this`full, mm.bitmap.buffer
      ensures Free() == old(Free()) + FramesAt(old(mem), pml4, Own() - Copied(old(mem), pml4, |old(Free())|))
      ensures Node(old(mem), pml4, L01).value in Free() && Node(old(mem), pml4, L01).value !in old(Free())
      ensures |old(Free())| == 1 ==> forall q: Page :: q.Valid() && q.a == 0 && q.b < 2 ==> Walk(mem, pml4, q) == Fault
    {
      hide MemoryManager.Valid, MemoryManager.FreeSet, Sys, Own, FramesAt, StillApart, Walk, TornDown, Copied,
           Untouched;
      KernelTable(mem, Free(), mm.Total(), pml4, roots, full);
      ghost var m0, free0 := mem, Free();
      ghost var done;
      OwnPlaces();
      assert Node(m0, pml4, L01).value !in free0 by { RootReady(m0, free0, mm.Total(), pml4, roots, full, pml4); }
      cr3, done := CreateProcessPageTable();
      ghost var m1, free1 := mem, Free();
      assert Untouched(m0, m1, pml4) && Created(m0, m1, free0, free1, pml4, roots - {cr3}, cr3, done);
      if |free0| == 1 {
        CopiedIs(m0, pml4, 1);
        SharedTop(m0, m1, free0, free1, pml4, roots - {cr3}, cr3);
        forall q: Page | q.Valid() && q.a == 0 && q.b < 2 ensures Walk(TornDown(m1, cr3), pml4, q) == Fault {
          PartialTeardownBreaksKernel(m1, free1, mm.Total(), pml4, roots, full, cr3, q);
        }
      }
      LastNotCopied(m0, pml4, |free0|);
      ShortCopy(m0, m1, free0, free1, pml4, roots - {cr3}, cr3, done);
      FreeProcessPageTable(cr3);
    }

    /** One aligned page, one free frame and a missing table: the call reports success and maps nothing. */
    method AllocateUnmapped(vaddr: nat, flags: Flags) returns (ok: bool)
      requires Ready() && vaddr % 0x1000 == 0 && |Free()| == 1 && Missing(mem, pml4, PageOf(At(vaddr, 0))) != {}
      modifies this`mem, mm.bitmap.buffer
      ensures ok && Ready() && Free() == {}
      ensures forall q: Page :: q.Valid() ==> Walk(mem, pml4, q) == Walk(old(mem), pml4, q)
    {
      hide MemoryManager.Valid, MemoryManager.FreeSet, Inv, InUse, Walk, Grown, PathFrames, PageOf, At, DataFrames;
      OneTableShort(mem, pml4, vaddr);
      ghost var frames, done;
      ok, frames, done := AllocateVirtual(vaddr, 0x1000, flags);
    }

    /** `AllocateVirtual` under another root: the active root is swapped for the time of the call. Every root that
        shares a table on the walk to a page sees the new mapping, no other root does. */
    method AllocateVirtualForProcess(target: nat, vaddr: nat, size: nat, flags: Flags)
      returns (ok: bool, ghost frames: seq<nat>, ghost done: nat)
      requires System() && target in roots
      modifies this`mem, this`pml4, mm.bitmap.buffer
      ensures Frames() && pml4 == old(pml4)
      ensures Backed(old(mem), mem, old(Free()), Free(), target, vaddr, PageCount(size), flags, ok, frames, done)
      ensures Seen(old(mem), mem, target, roots)
      ensures Grown(old(mem), mem, target, old(Free()), Free(), RangeFrames(old(mem), target, vaddr, PageCount(size)))
      ensures NewOnly(old(mem), mem, target, RangePath(vaddr, PageCount(size)))
      ensures forall s :: s in roots ==> DataFrames(frames, mem, s, old(Free()), Free())
      ensures System() <==> (flags.p && flags.u ==> Admits(old(mem), target, roots, vaddr, done))
      ensures (forall s :: s in roots && s != target ==>
                Isolated(old(mem), full, target, s, vaddr, PageCount(size))) ==>
                System() && StillApart(old(mem), mem, roots) && forall s :: s in roots && s != target ==>
                       Untouched(old(mem), mem, s)
    {
      hide MemoryManager.Valid, MemoryManager.FreeSet, Sys, Walk, Inv, InUse, Grown, DataFrames, Untouched, StillApart,
           Isolated, TablesNeeded, PageCount, RangeFrames, RangePath, Seen, Admits, Granted, NewOnly;
      ghost var m0, free0 := mem, Free();
      RootReady(m0, free0, mm.Total(), pml4, roots, full, target);
      var original := pml4;
      pml4 := target;
      ok, frames, done := AllocateVirtual(vaddr, size, flags);
      pml4 := original;
      BackedForAll(m0, mem, free0, Free(), mm.Total(), pml4, roots, full, target, vaddr, PageCount(size), flags,
                   frames, done);
    }

    /** `AllocateVirtual` under the kernel root while process roots live, as the loader calls it. */
    method KernelAllocateVirtual(vaddr: nat, size: nat, flags: Flags)
      returns (ok: bool, ghost frames: seq<nat>, ghost done: nat)
      requires System()
      modifies this`mem, mm.bitmap.buffer
      ensures Frames()
      ensures Backed(old(mem), mem, old(Free()), Free(), pml4, vaddr, PageCount(size), flags, ok, frames, done)
      ensures Seen(old(mem), mem, pml4, roots)
      ensures Grown(old(mem), mem, pml4, old(Free()), Free(), RangeFrames(old(mem), pml4, vaddr, PageCount(size)))
      ensures NewOnly(old(mem), mem, pml4, RangePath(vaddr, PageCount(size)))
      ensures forall s :: s in roots ==> DataFrames(frames, mem, s, old(Free()), Free())
      ensures System() <==> (flags.p && flags.u ==> Admits(old(mem), pml4, roots, vaddr, done))
      ensures (forall s :: s in roots && s != pml4 ==> Isolated(old(mem), full, pml4, s, vaddr, PageCount(size))) ==>
                System() && StillApart(old(mem), mem, roots) && forall s :: s in roots && s != pml4 ==>
                       Untouched(old(mem), mem, s)
    {
      hide MemoryManager.Valid, MemoryManager.FreeSet, Sys, Walk, Inv, InUse, Grown, DataFrames, Untouched, StillApart,
           Isolated, TablesNeeded, PageCount, RangeFrames, RangePath, Seen, Admits, Granted, NewOnly;
      ghost var m0, free0 := mem, Free();
      KernelTable(m0, free0, mm.Total(), pml4, roots, full);
      RootReady(m0, free0, mm.Total(), pml4, roots, full, pml4);
      ok, frames, done := AllocateVirtual(vaddr, size, flags);
      BackedForAll(m0, mem, free0, Free(), mm.Total(), pml4, roots, full, pml4, vaddr, PageCount(size), flags, frames,
                   done);
    }

    /** `MapPage` under the kernel root while process roots live. */
    method KernelMapPage(vaddr: nat, paddr: nat, count: nat, flags: Flags) returns (ghost done: nat)
      requires System()
      modifies this`mem, mm.bitmap.buffer
      ensures Frames() && done <= count
      ensures done == count <==> |old(Free())| >= TablesNeeded(old(mem), pml4, vaddr, count)
      ensures forall q: Page :: q.Valid() ==>
                Walk(mem, pml4, q) == After(Walk(old(mem), pml4, q), q, vaddr, paddr, done, flags)
      ensures Seen(old(mem), mem, pml4, roots)
      ensures Grown(old(mem), mem, pml4, old(Free()), Free(), RangeFrames(old(mem), pml4, vaddr, count))
      ensures NewOnly(old(mem), mem, pml4, RangePath(vaddr, count))
      ensures System() <==> (flags.p && flags.u ==> Admits(old(mem), pml4, roots, vaddr, done))
      ensures (forall s :: s in roots && s != pml4 ==> Isolated(old(mem), full, pml4, s, vaddr, count)) ==>
                System() && StillApart(old(mem), mem, roots) && forall s :: s in roots && s != pml4 ==>
                       Untouched(old(mem), mem, s)
    {
      hide MemoryManager.Valid, MemoryManager.FreeSet, Sys, Walk, Inv, InUse, Grown, Untouched, StillApart,
           Isolated, TablesNeeded, RangeFrames, RangePath, Seen, Admits, NewOnly;
      ghost var m0, free0 := mem, Free();
      KernelTable(m0, free0, mm.Total(), pml4, roots, full);
      RootReady(m0, free0, mm.Total(), pml4, roots, full, pml4);
      done := MapPage(vaddr, paddr, count, flags);
      AfterKinds(m0, mem, pml4, vaddr, paddr, done, flags);
      RangeForAll(m0, mem, free0, Free(), mm.Total(), pml4, roots, full, pml4, vaddr, done, count, flags);
    }

    /** What a finished copy amounts to. */
    lemma Finish(m0: Memory, free0: set<nat>, n: nat, done: set<Loc>)
      requires Frames() && Copying(m0, mem, free0, Free(), mm.Total(), pml4, roots, full, n, done) && pml4 in roots
      requires Sys(m0, free0, mm.Total(), pml4, roots, full)
      ensures Sys(mem, Free(), mm.Total(), pml4, roots + {n}, if done == Own() then full + {n} else full)
      requires Top in done
      ensures n != 0 && Created(m0, mem, free0, Free(), pml4, roots, n, done)
    {
      hide MemoryManager.Valid, MemoryManager.FreeSet, Own, Walk, View, FramesAt, Inv, SameSpot, Private, Alone;
      CopyDone(m0, mem, free0, Free(), mm.Total(), pml4, roots, full, n, done);
      FramesAtTaken(mem, n, free0, Free(), done);
      assert RootOk(m0, pml4, free0, mm.Total());
      WalksAreViews(m0, pml4);
      assert Untouched(m0, mem, pml4);
      KernelTable(mem, Free(), mm.Total(), pml4, roots + {n}, full);
    }

    /** Maps `count` consecutive pages, or as many as the frames for tables allow. */
    method MapPage(vaddr: nat, paddr: nat, count: nat, flags: Flags) returns (ghost done: nat)
      requires Frames() && (pml4 == 0 || Ready())
      modifies this`mem, mm.bitmap.buffer
      ensures Frames() && (pml4 == 0 ==> mem == old(mem) && Free() == old(Free()))
      ensures pml4 != 0 ==> Ready() && done <= count
      ensures pml4 != 0 ==> (done == count <==> |old(Free())| >= TablesNeeded(old(mem), pml4, vaddr, count))
      ensures pml4 != 0 && done < count ==> Free() == {}
      ensures pml4 != 0 ==> forall q: Page :: q.Valid() ==>
                Walk(mem, pml4, q) == After(Walk(old(mem), pml4, q), q, vaddr, paddr, done, flags)
      ensures pml4 != 0 ==> Grown(old(mem), mem, pml4, old(Free()), Free(), RangeFrames(old(mem), pml4, vaddr, count))
      ensures pml4 != 0 ==> NewOnly(old(mem), mem, pml4, RangePath(vaddr, count))
      ensures pml4 != 0 ==> BytesKept(old(mem), mem, pml4, vaddr, 0x1000 * count)
      ensures pml4 != 0 && done == count ==> BytesMapped(mem, pml4, vaddr, paddr, count, flags)
    {
      hide BytesKept, BytesMapped, MemoryManager.Valid, MemoryManager.FreeSet, Inv, InUse, Missing, MissingIn, Grown,
           Gained, View, PathFrames, Walk, PageOf, At, Requested, TablesNeeded, NewOnly, RangePath;
      done := 0;
      if pml4 == 0 {
        return;
      }
      ghost var m0, free0 := mem, Free();
      WalksAreViews(m0, pml4);
      RangeStart(m0, pml4, free0, vaddr);
      var i := 0;
      while i < count
        invariant i <= count && done == i && Frames()
        invariant RangeMapped(m0, mem, pml4, free0, Free(), vaddr, i, 0)
        invariant forall q: Page :: q.Valid() ==>
                    View(mem, pml4, q) == After(View(m0, pml4, q), q, vaddr, paddr, i, flags)
      {
        ghost var m1, free1 := mem, Free();
        var ok := MapOne(PageOf(At(vaddr, i)), At(paddr, i), flags);
        if !ok {
          RangeStuck(m0, m1, mem, pml4, free0, free1, Free(), vaddr, i, 0, count);
          WalksAreViews(mem, pml4);
          MapsBytes(m0, mem, pml4, vaddr, paddr, i, count, flags);
          return;
        }
        RangeStep(m0, m1, mem, pml4, free0, free1, Free(), vaddr, i, 0);
        i := i + 1;
        done := i;
      }
      RangeReady(m0, mem, pml4, free0, Free(), vaddr, count, 0, count);
      WalksAreViews(mem, pml4);
      MapsBytes(m0, mem, pml4, vaddr, paddr, count, count, flags);
    }

    /** Backs a range with fresh zeroed frames. `frames` are the frames taken, in page order, and `done` counts
        the pages that were mapped. */
    method AllocateVirtual(vaddr: nat, size: nat, flags: Flags)
      returns (ok: bool, ghost frames: seq<nat>, ghost done: nat)
      requires Ready()
      modifies this`mem, mm.bitmap.buffer
      ensures Ready()
      ensures DataFrames(frames, mem, pml4, old(Free()), Free()) && done <= |frames| <= PageCount(size)
      ensures forall q: Page :: q.Valid() ==>
                Walk(mem, pml4, q) == AfterFrames(Walk(old(mem), pml4, q), q, vaddr, frames[..done], flags)
      ensures ok <==> vaddr % 0x1000 == 0 && |frames| == PageCount(size)
      ensures ok <==> Granted(old(mem), pml4, vaddr, PageCount(size), |old(Free())|)
      ensures done == |frames| || (done == |frames| - 1 && Free() == {})
      ensures vaddr % 0x1000 == 0 ==>
                (done == PageCount(size) <==>
                 |old(Free())| >= PageCount(size) + TablesNeeded(old(mem), pml4, vaddr, PageCount(size)))
      ensures !ok && vaddr % 0x1000 == 0 ==> Free() == {}
      ensures Grown(old(mem), mem, pml4, old(Free()), Free(), RangeFrames(old(mem), pml4, vaddr, PageCount(size)))
      ensures NewOnly(old(mem), mem, pml4, RangePath(vaddr, PageCount(size)))
      ensures BytesKept(old(mem), mem, pml4, vaddr, size)
      ensures vaddr % 0x1000 == 0 && done == PageCount(size) ==> BytesBacked(mem, pml4, vaddr, size, frames, flags)
    {
      hide BytesKept, BytesBacked, MemoryManager.Valid, MemoryManager.FreeSet, Inv, InUse, Grown, Walk, PageOf, At,
           TablesNeeded, PageCount, DataFrames, RangeMapped, NewOnly, RangePath, RangeFrames;
      frames, done := [], 0;
      if vaddr % 0x1000 != 0 {
        ok := false;
        Unaligned(mem, pml4, Free(), vaddr, PageCount(size));
      } else {
        ok, frames, done := BackPages(vaddr, PageCount(size), flags);
      }
      BacksBytes(old(mem), mem, pml4, vaddr, size, frames, done, flags);
    }

    /** The loop of `AllocateVirtual` over n pages. */
    method BackPages(vaddr: nat, n: nat, flags: Flags) returns (ok: bool, ghost frames: seq<nat>, ghost done: nat)
      requires Ready() && vaddr % 0x1000 == 0
      modifies this`mem, mm.bitmap.buffer
      ensures Ready()
      ensures DataFrames(frames, mem, pml4, old(Free()), Free()) && done <= |frames| <= n
      ensures forall q: Page :: q.Valid() ==>
                Walk(mem, pml4, q) == AfterFrames(Walk(old(mem), pml4, q), q, vaddr, frames[..done], flags)
      ensures ok <==> |frames| == n
      ensures ok <==> Granted(old(mem), pml4, vaddr, n, |old(Free())|)
      ensures done == |frames| || (done == |frames| - 1 && Free() == {})
      ensures done == n <==> |old(Free())| >= n + TablesNeeded(old(mem), pml4, vaddr, n)
      ensures !ok ==> Free() == {}
      ensures Grown(old(mem), mem, pml4, old(Free()), Free(), RangeFrames(old(mem), pml4, vaddr, n))
      ensures NewOnly(old(mem), mem, pml4, RangePath(vaddr, n))
    {
      hide MemoryManager.Valid, MemoryManager.FreeSet, Inv, InUse, Grown, View, Walk, PageOf, At, Requested,
           TablesNeeded, DataFrames, RangeMapped, Stuck, NewOnly, RangePath, RangeFrames, AfterFrames, ViewsBacked;
      ghost var m0, free0 := mem, Free();
      frames, done := [], 0;
      RangeStart(m0, pml4, free0, vaddr);
      NoData(m0, pml4, free0);
      RangeReady(m0, mem, pml4, free0, Free(), vaddr, 0, 0, n);
      NoneBacked(m0, pml4, vaddr, flags);
      var i := 0;
      while i < n
        invariant i <= n && Frames() && |frames| == i && DataFrames(frames, mem, pml4, free0, Free())
        invariant done == i || (done == i - 1 && Stuck(m0, mem, pml4, free0, Free(), vaddr, n))
        invariant done == i ==> RangeMapped(m0, mem, pml4, free0, Free(), vaddr, i, i)
        invariant done != i ==> |free0| < i + TablesNeeded(m0, pml4, vaddr, i)
        invariant i > 0 ==> |free0| > i - 1 + TablesNeeded(m0, pml4, vaddr, i - 1)
        invariant ViewsBacked(m0, mem, pml4, vaddr, frames[..done], flags)
      {
        if done != i { StuckReady(m0, mem, pml4, free0, Free(), vaddr, n); }
        ghost var m1 := mem;
        var f, mapped := BackPage(m0, free0, vaddr, i, n, flags, frames, done == i);
        if f.None? {
          StuckReady(m0, mem, pml4, free0, Free(), vaddr, n);
          TablesMono(m0, pml4, vaddr, i, n - 1);
          BackedWalks(m0, mem, pml4, vaddr, frames[..done], flags);
          ok := false;
          return;
        }
        assert frames[..i] == frames && (frames + [f.value])[..i] == frames;
        OneBacked(m0, m1, mem, pml4, vaddr, frames, flags, f.value, mapped);
        frames := frames + [f.value];
        i := i + 1;
        if mapped {
          assert frames[..i] == frames;
          done := i;
        }
      }
      if done == n { RangeReady(m0, mem, pml4, free0, Free(), vaddr, n, n, n); }
      else { StuckReady(m0, mem, pml4, free0, Free(), vaddr, n); }
      BackedWalks(m0, mem, pml4, vaddr, frames[..done], flags);
      ok := true;
    }

    /** One round of `AllocateVirtual`: take and clear a frame, then map page i of the range to it. */
    method BackPage(ghost m0: Memory, ghost free0: set<nat>, vaddr: nat, i: nat, ghost n: nat, flags: Flags,
                    ghost frames: seq<nat>, ghost going: bool)
      returns (f: Option<nat>, ghost mapped: bool)
      requires Frames() && i < n && DataFrames(frames, mem, pml4, free0, Free())
      requires going ==> RangeMapped(m0, mem, pml4, free0, Free(), vaddr, i, i)
      requires !going ==> Free() == {} && Stuck(m0, mem, pml4, free0, Free(), vaddr, n)
      modifies this`mem, mm.bitmap.buffer
      ensures Frames()
      ensures f.None? ==> mem == old(mem) && Free() == old(Free()) && Stuck(m0, mem, pml4, free0, Free(), vaddr, n)
      ensures f.Some? ==> going && DataFrames(frames + [f.value], mem, pml4, free0, Free())
      ensures f.Some? && mapped ==> RangeMapped(m0, mem, pml4, free0, Free(), vaddr, i + 1, i + 1)
      ensures f.Some? && !mapped ==> Stuck(m0, mem, pml4, free0, Free(), vaddr, n)
      ensures f.None? && going ==> |free0| == i + TablesNeeded(m0, pml4, vaddr, i)
      ensures f.Some? ==> |free0| > i + TablesNeeded(m0, pml4, vaddr, i)
      ensures f.Some? && !mapped ==> |free0| < i + 1 + TablesNeeded(m0, pml4, vaddr, i + 1)
      ensures f.Some? ==> forall q: Page :: q.Valid() ==>
                View(mem, pml4, q) ==
                if mapped && q == PageOf(At(vaddr, i)) then (if flags.p then To(f.value, flags.w, flags.u) else Fault)
                else View(old(mem), pml4, q)
    {
      hide MemoryManager.Valid, MemoryManager.FreeSet, Inv, InUse, Missing, MissingIn, Grown, Gained, View, PathFrames,
           At, Requested, TablesNeeded, DataFrames, RangeMapped, Stuck, NewOnly, RangePath;
      ghost var m1, free1 := mem, Free();
      mapped := false;
      if going { RangeCount(m0, m1, pml4, free0, free1, vaddr, i, i); }
      f := AllocateTable();
      if f.None? {
        if going { RangeOut(m0, m1, pml4, free0, vaddr, i, n); }
        return;
      }
      ghost var m2, free2 := mem, Free();
      RangeData(m0, m1, pml4, free0, free1, vaddr, i, i, f.value);
      RangeReady(m0, m1, pml4, free0, free1, vaddr, i, i, n);
      RangeReady(m0, m2, pml4, free0, free2, vaddr, i, i + 1, n);
      DataTaken(frames, m1, pml4, free0, free1, f.value);
      RequestedFrame(f.value, flags);
      var ok := MapOne(PageOf(At(vaddr, i)), f.value * 0x1000, flags);   // MapPage with a count of one
      DataKept(frames + [f.value], m2, mem, pml4, free0, free2, Free(), PageOf(At(vaddr, i)));
      mapped := ok;
      if ok {
        RangeStep(m0, m2, mem, pml4, free0, free2, Free(), vaddr, i, i + 1);
      } else {
        RangeStuck(m0, m2, mem, pml4, free0, free2, Free(), vaddr, i, i + 1, i + 1);
        RangeStuck(m0, m2, mem, pml4, free0, free2, Free(), vaddr, i, i + 1, n);
        StuckHere(m0, mem, pml4, free0, Free(), vaddr, i + 1, n);
      }
    }

    /** Maps one page. It succeeds exactly when the free frames suffice for the missing tables. */
    method MapOne(q: Page, paddr: nat, flags: Flags) returns (ok: bool)
      requires Ready() && q.Valid()
      modifies this`mem, mm.bitmap.buffer
      ensures Ready()
      ensures ok <==> |old(Free())| >= |Missing(old(mem), pml4, q)|
      ensures Grown(old(mem), mem, pml4, old(Free()), Free(), PathFrames(old(mem), pml4, q))
      ensures ok ==> Gained(old(mem), mem, pml4, Path(q)) && |Free()| == |old(Free())| - |Missing(old(mem), pml4, q)|
      ensures !ok ==> Free() == {}
      ensures NewOnly(old(mem), mem, pml4, Path(q))
      ensures forall r: Page :: r.Valid() ==>
                View(mem, pml4, r) == if ok && r == q then Requested(paddr, flags) else View(old(mem), pml4, r)
    {
      hide MemoryManager.Valid, MemoryManager.FreeSet, Inv, InUse, Missing, MissingIn, Grown, Gained, View, PathFrames,
           NewOnly;
      var pt := ReachPageTable(q, flags.u);
      if pt.None? {
        return false;
      }
      ghost var m1 := mem;
      TableResident(mem, pml4, PtLoc(q));
      LeafStep(mem, pml4, Free(), q, paddr, flags);
      mem := Poke(mem, pt.value, q.d, LeafEntry(mem[pt.value][q.d], paddr, flags));
      MapOneFrame(old(mem), m1, mem, pml4, old(Free()), Free(), q, pt.value);
      return true;
    }
  }

  // ---------- ranges of pages ----------

  /** The translation of q after the first n pages of a range have been mapped: the last mapping of q, if any. */
  function After(before: Translation, q: Page, vaddr: nat, paddr: nat, n: nat, flags: Flags): Translation {
    if n == 0 then before
    else if PageOf(At(vaddr, n - 1)) == q then Requested(At(paddr, n - 1), flags)
    else After(before, q, vaddr, paddr, n - 1, flags)
  }

  /** A page outside the range keeps its translation. */
  lemma {:induction false} AfterOutside(before: Translation, q: Page, vaddr: nat, paddr: nat, n: nat, flags: Flags)
    requires forall i: nat :: i < n ==> PageOf(At(vaddr, i)) != q
    ensures After(before, q, vaddr, paddr, n, flags) == before
  {
    if n > 0 { AfterOutside(before, q, vaddr, paddr, n - 1, flags); }
  }

  /** In a range of at most 2^36 pages, page i gets exactly the requested frame and rights. */
  lemma {:induction false} AfterInside(before: Translation, vaddr: nat, paddr: nat, n: nat, flags: Flags, i: nat)
    requires i < n <= VPAGES
    ensures After(before, PageOf(At(vaddr, i)), vaddr, paddr, n, flags) == Requested(At(paddr, i), flags)
  {
    if i < n - 1 {
      RangeIsInjective(vaddr, i, n - 1);
      AfterInside(before, vaddr, paddr, n - 1, flags, i);
    }
  }

  function RangePath(vaddr: nat, n: nat): set<Loc> {
    if n == 0 then {} else RangePath(vaddr, n - 1) + Path(PageOf(At(vaddr, n - 1)))
  }

  ghost function RangeFrames(m: Memory, root: nat, vaddr: nat, n: nat): set<nat> {
    if n == 0 then {} else RangeFrames(m, root, vaddr, n - 1) + PathFrames(m, root, PageOf(At(vaddr, n - 1)))
  }

  lemma {:induction false} RangeFramesMono(m: Memory, root: nat, vaddr: nat, k: nat, n: nat)
    requires k <= n
    ensures RangeFrames(m, root, vaddr, k) <= RangeFrames(m, root, vaddr, n)
            && RangePath(vaddr, k) <= RangePath(vaddr, n)
  {
    if k < n { RangeFramesMono(m, root, vaddr, k, n - 1); }
  }

  /** The tables that mapping a range has to create. */
  function TablesNeeded(m: Memory, root: nat, vaddr: nat, n: nat): nat {
    |MissingIn(m, root, RangePath(vaddr, n))|
  }

  /** The first n pages of a range are mapped, and `data` frames were taken for their contents. */
  ghost predicate RangeMapped(m0: Memory, m: Memory, root: nat, free0: set<nat>, free: set<nat>,
                              vaddr: nat, n: nat, data: nat) {
    && Inv(m, root) && InUse(m, root, free)
    && Grown(m0, m, root, free0, free, RangeFrames(m0, root, vaddr, n))
    && Gained(m0, m, root, RangePath(vaddr, n))
    && |free| == |free0| - TablesNeeded(m0, root, vaddr, n) - data
  }

  lemma RangeStart(m: Memory, root: nat, free: set<nat>, vaddr: nat)
    requires Inv(m, root) && InUse(m, root, free)
    ensures RangeMapped(m, m, root, free, free, vaddr, 0, 0)
  {
    assert MissingIn(m, root, RangePath(vaddr, 0)) == {};
  }

  /** Path frames of a later state are path frames of the first state or came out of its free frames. */
  lemma PathFramesOrFree(m0: Memory, m: Memory, root: nat, free0: set<nat>, free: set<nat>, t: set<nat>, q: Page)
    requires Grown(m0, m, root, free0, free, t)
    ensures PathFrames(m, root, q) <= PathFrames(m0, root, q) + free0
  {
    forall f | f in PathFrames(m, root, q) ensures f in PathFrames(m0, root, q) + free0 {
      var l :| l in Path(q) + {Top} && Node(m, root, l).Some? && Node(m, root, l).value == f;
      assert l.Depth() <= 3;
      if Node(m0, root, l).Some? { OnPath(m0, root, q, l); }
    }
  }

  /** What is missing for one more page, counted against the first state. */
  lemma MissingSplits(m0: Memory, m: Memory, root: nat, vaddr: nat, n: nat)
    requires Gained(m0, m, root, RangePath(vaddr, n))
    ensures TablesNeeded(m0, root, vaddr, n + 1) ==
            TablesNeeded(m0, root, vaddr, n) + |Missing(m, root, PageOf(At(vaddr, n)))|
  {
    var q := PageOf(At(vaddr, n));
    var a, b := MissingIn(m0, root, RangePath(vaddr, n)), Missing(m, root, q);
    assert forall l :: l in Path(q) ==> l.Depth() <= 3;
    assert MissingIn(m0, root, RangePath(vaddr, n + 1)) == a + b;
    assert a !! b;
  }

  lemma RangeStep(m0: Memory, m: Memory, m': Memory, root: nat, free0: set<nat>, free: set<nat>, free': set<nat>,
                  vaddr: nat, n: nat, data: nat)
    requires RangeMapped(m0, m, root, free0, free, vaddr, n, data)
    requires Inv(m', root) && InUse(m', root, free')
    requires var q := PageOf(At(vaddr, n));
             && Grown(m, m', root, free, free', PathFrames(m, root, q))
             && Gained(m, m', root, Path(q)) && |free'| == |free| - |Missing(m, root, q)|
    ensures RangeMapped(m0, m', root, free0, free', vaddr, n + 1, data)
  {
    var q, frames := PageOf(At(vaddr, n)), RangeFrames(m0, root, vaddr, n);
    GrownTrans(m0, m, m', root, free0, free, free', frames, PathFrames(m, root, q));
    PathFramesOrFree(m0, m, root, free0, free, frames, q);
    GrownWider(m0, m', root, free0, free', frames + PathFrames(m, root, q), RangeFrames(m0, root, vaddr, n + 1));
    MissingSplits(m0, m, root, vaddr, n);
  }

  /** Where the range stops for want of a frame, there were not enough frames for the whole range. */
  lemma RangeStuck(m0: Memory, m: Memory, m': Memory, root: nat, free0: set<nat>, free: set<nat>, free': set<nat>,
                   vaddr: nat, n: nat, data: nat, count: nat)
    requires RangeMapped(m0, m, root, free0, free, vaddr, n, data) && n < count
    requires var q := PageOf(At(vaddr, n));
             |free| < |Missing(m, root, q)| && Grown(m, m', root, free, free', PathFrames(m, root, q))
                 && NewOnly(m, m', root, Path(q))
    ensures |free0| < TablesNeeded(m0, root, vaddr, count) + data
    ensures NewOnly(m0, m', root, RangePath(vaddr, count))
    ensures Grown(m0, m', root, free0, free', RangeFrames(m0, root, vaddr, count))
  {
    var q, frames := PageOf(At(vaddr, n)), RangeFrames(m0, root, vaddr, n);
    MissingSplits(m0, m, root, vaddr, n);
    RangeFramesMono(m0, root, vaddr, n + 1, count);
    SubsetSize(MissingIn(m0, root, RangePath(vaddr, n + 1)), MissingIn(m0, root, RangePath(vaddr, count)));
    GrownTrans(m0, m, m', root, free0, free, free', frames, PathFrames(m, root, q));
    PathFramesOrFree(m0, m, root, free0, free, frames, q);
    GrownWider(m0, m', root, free0, free', frames + PathFrames(m, root, q), RangeFrames(m0, root, vaddr, count));
  }

  /** Taking a frame for the contents of a page. */
  lemma RangeData(m0: Memory, m: Memory, root: nat, free0: set<nat>, free: set<nat>, vaddr: nat, n: nat, data: nat,
                  f: nat)
    requires RangeMapped(m0, m, root, free0, free, vaddr, n, data) && f in free
    ensures RangeMapped(m0, m[f := ZERO_TABLE], root, free0, free - {f}, vaddr, n, data + 1)
    ensures SameViews(m, m[f := ZERO_TABLE], root)
    ensures forall l: Loc :: l.Depth() <= 3 ==>
              Node(m[f := ZERO_TABLE], root, l) == Node(m, root, l) && Node(m, root, l) != Some(f)
  {
    FillFree(m, root, free, f, ZERO_TABLE);
    GrownTrans(m0, m, m[f := ZERO_TABLE], root, free0, free, free - {f}, RangeFrames(m0, root, vaddr, n), {});
    assert RangeFrames(m0, root, vaddr, n) + {} == RangeFrames(m0, root, vaddr, n);
  }

  lemma TableResident(m: Memory, root: nat, l: Loc)
    requires Inv(m, root) && l.Depth() <= 3 && Node(m, root, l).Some?
    ensures Has(m, root, l)
  {}

  lemma MapOneFrame(m0: Memory, m: Memory, m': Memory, root: nat, free0: set<nat>, free: set<nat>, q: Page, t: nat)
    requires Progress(m0, m, root, free0, free, q, Path(q)) && Node(m, root, PtLoc(q)) == Some(t)
    requires Grown(m, m', root, free, free, {t})
    requires forall l: Loc :: l.Depth() <= 3 ==> Node(m', root, l) == Node(m, root, l)
    ensures Grown(m0, m', root, free0, free, PathFrames(m0, root, q))
    ensures Gained(m0, m', root, Path(q)) && |free| == |free0| - |Missing(m0, root, q)|
    ensures NewOnly(m0, m', root, Path(q))
  {
    var frames := PathFrames(m0, root, q);
    GrownTrans(m0, m, m', root, free0, free, free, frames, {t});
    if Node(m0, root, PtLoc(q)).Some? { OnPath(m0, root, q, PtLoc(q)); }
    GrownWider(m0, m', root, free0, free, frames + {t}, frames);
  }

  lemma WalksAreViews(m: Memory, root: nat)
    requires Inv(m, root)
    ensures forall q: Page :: q.Valid() ==> Walk(m, root, q) == View(m, root, q)
  {
    forall q: Page | q.Valid() ensures Walk(m, root, q) == View(m, root, q) { WalkIsView(m, root, q); }
  }

  /** `AllocateVirtual` reports success: the range is aligned, and there are frames for all pages and for the tables of
      all pages but the last. */
  predicate Granted(m: Memory, root: nat, vaddr: nat, n: nat, free: nat) {
    vaddr % 0x1000 == 0 && (n == 0 || free >= n + TablesNeeded(m, root, vaddr, n - 1))
  }

  /** How many pages a byte size spans: size_t arithmetic. */
  function PageCount(size: nat): nat {
    ((size + 0xFFF) % 0x1_0000_0000_0000_0000) / 0x1000
  }

  /** The pages of a size are the fewest that hold it; a size within 4095 bytes of 2^64 wraps to none. */
  lemma PageCountHolds(size: nat)
    requires size < ADDRESSES
    ensures 0 < size <= ADDRESSES - 0x1000 ==> 0x1000 * (PageCount(size) - 1) < size <= 0x1000 * PageCount(size)
    ensures size == 0 || size > ADDRESSES - 0x1000 ==> PageCount(size) == 0
  {}

  // ---------- the same by bytes ----------

  /** A page without a byte of the range keeps its translation. */
  ghost predicate BytesKept(m: Memory, m': Memory, root: nat, vaddr: nat, size: nat) {
    forall q: Page :: q.Valid() && (forall o: nat :: o < size ==> PageOf(Byte(vaddr, o)) != q) ==>
      Walk(m', root, q) == Walk(m, root, q)
  }

  /** Every byte of a range whose size does not wrap is backed by one of the frames, with the rights asked for. */
  ghost predicate BytesBacked(m: Memory, root: nat, vaddr: nat, size: nat, frames: seq<nat>, flags: Flags) {
    size <= ADDRESSES - 0x1000 ==> forall o: nat :: o < size ==> ByteBacked(m, root, vaddr, size, o, frames, flags)
  }

  ghost predicate ByteBacked(m: Memory, root: nat, vaddr: nat, size: nat, o: nat, frames: seq<nat>, flags: Flags) {
    exists k: nat :: BackedBy(m, root, vaddr, size, o, frames, k, flags)
  }

  /** Byte o is backed by frame k: the frame of its page, or, past 2^48 bytes, that of a later page at the same
      place of the tree. */
  ghost predicate BackedBy(m: Memory, root: nat, vaddr: nat, size: nat, o: nat, frames: seq<nat>, k: nat,
                           flags: Flags) {
    && o / 0x1000 <= k < |frames| && (size <= 0x1_0000_0000_0000 ==> k == o / 0x1000)
    && Walk(m, root, PageOf(Byte(vaddr, o))) == if flags.p then To(frames[k], flags.w, flags.u) else Fault
  }

  /** Every byte of a page-aligned range of up to 2^36 pages leads to the same byte of the physical range, with the
      rights asked for, if that range is aligned too and ends below 2^52. */
  ghost predicate BytesMapped(m: Memory, root: nat, vaddr: nat, paddr: nat, count: nat, flags: Flags) {
    vaddr % 0x1000 == 0 && paddr % 0x1000 == 0 && count <= VPAGES && paddr + 0x1000 * count <= 0x10_0000_0000_0000 ==>
      forall o: nat :: o < 0x1000 * count ==>
        var t := Walk(m, root, PageOf(Byte(vaddr, o)));
        if flags.p then t.To? && t.frame * 0x1000 + o % 0x1000 == paddr + o && t.w == flags.w && t.u == flags.u
        else t == Fault
  }

  lemma MapsBytes(m: Memory, m': Memory, root: nat, vaddr: nat, paddr: nat, done: nat, count: nat, flags: Flags)
    requires done <= count
    requires forall q: Page :: q.Valid() ==>
               Walk(m', root, q) == After(Walk(m, root, q), q, vaddr, paddr, done, flags)
    ensures BytesKept(m, m', root, vaddr, 0x1000 * count)
    ensures done == count ==> BytesMapped(m', root, vaddr, paddr, count, flags)
  {
    hide Walk, PageOf, At, Requested, After;
    forall q: Page | q.Valid() && forall o: nat :: o < 0x1000 * count ==> PageOf(Byte(vaddr, o)) != q
      ensures Walk(m', root, q) == Walk(m, root, q)
    {
      forall i: nat | i < done ensures PageOf(At(vaddr, i)) != q { FirstByte(vaddr, i); }
      AfterOutside(Walk(m, root, q), q, vaddr, paddr, done, flags);
    }
    if done == count && vaddr % 0x1000 == 0 && paddr % 0x1000 == 0 && count <= VPAGES
       && paddr + 0x1000 * count <= 0x10_0000_0000_0000 {
      forall o: nat | o < 0x1000 * count
        ensures var t := Walk(m', root, PageOf(Byte(vaddr, o)));
                if flags.p then t.To? && t.frame * 0x1000 + o % 0x1000 == paddr + o && t.w == flags.w && t.u == flags.u
                else t == Fault
      {
        ByteOnPage(vaddr, o);
        AfterInside(Walk(m, root, PageOf(Byte(vaddr, o))), vaddr, paddr, count, flags, o / 0x1000);
        RequestedByte(paddr, o, flags);
      }
    }
  }

  lemma FirstByte(vaddr: nat, i: nat)
    ensures At(vaddr, i) == Byte(vaddr, 0x1000 * i)
  {}

  lemma RequestedByte(paddr: nat, o: nat, flags: Flags)
    requires paddr % 0x1000 == 0 && paddr + o < 0x10_0000_0000_0000
    ensures var t := Requested(At(paddr, o / 0x1000), flags);
            if flags.p then t.To? && t.frame * 0x1000 + o % 0x1000 == paddr + o && t.w == flags.w && t.u == flags.u
            else t == Fault
  {
    var i, k := o / 0x1000, paddr / 0x1000;
    assert o == 0x1000 * i + o % 0x1000 && paddr == 0x1000 * k;
    assert At(paddr, i) == 0x1000 * (k + i);
    assert At(paddr, i) / 0x1000 == k + i < FRAME_BITS;
  }

  lemma BacksBytes(m: Memory, m': Memory, root: nat, vaddr: nat, size: nat, frames: seq<nat>, done: nat, flags: Flags)
    requires done <= |frames| && done <= PageCount(size)
    requires forall q: Page :: q.Valid() ==>
               Walk(m', root, q) == AfterFrames(Walk(m, root, q), q, vaddr, frames[..done], flags)
    ensures BytesKept(m, m', root, vaddr, size)
    ensures vaddr % 0x1000 == 0 && done == PageCount(size) ==> BytesBacked(m', root, vaddr, size, frames, flags)
  {
    hide Walk, PageOf, At, AfterFrames, Requested;
    forall q: Page | q.Valid() && forall o: nat :: o < size ==> PageOf(Byte(vaddr, o)) != q
      ensures Walk(m', root, q) == Walk(m, root, q)
    {
      forall i: nat | i < done ensures PageOf(At(vaddr, i)) != q {
        FirstByte(vaddr, i);
        PageBegins(size, i);
      }
      AfterFramesOutside(Walk(m, root, q), q, vaddr, frames[..done], flags);
    }
    if vaddr % 0x1000 == 0 && done == PageCount(size) && size <= ADDRESSES - 0x1000 {
      forall o: nat | o < size ensures ByteBacked(m', root, vaddr, size, o, frames, flags) {
        PageHolds(size, o);
        ByteOnPage(vaddr, o);
        var k := LastFrame(Walk(m, root, PageOf(Byte(vaddr, o))), vaddr, frames[..done], flags, o / 0x1000);
        assert BackedBy(m', root, vaddr, size, o, frames, k, flags);
      }
    }
  }

  /** Every counted page has a byte of the size on it. */
  lemma PageBegins(size: nat, i: nat)
    requires i < PageCount(size)
    ensures 0x1000 * i < size
  {}

  lemma PageHolds(size: nat, o: nat)
    requires o < size <= ADDRESSES - 0x1000
    ensures o / 0x1000 < PageCount(size) && (size <= 0x1_0000_0000_0000 ==> PageCount(size) <= VPAGES)
  {}

  /** The translation of q after pages have been given the listed frames: the last one given to q, if any. */
  function AfterFrames(before: Translation, q: Page, vaddr: nat, frames: seq<nat>, flags: Flags): Translation {
    if frames == [] then before
    else
      var n := |frames| - 1;
      if PageOf(At(vaddr, n)) == q then (if flags.p then To(frames[n], flags.w, flags.u) else Fault)
      else AfterFrames(before, q, vaddr, frames[..n], flags)
  }

  /** The pages of the range are backed by the frames, page by page, and the others are as they were. */
  ghost predicate ViewsBacked(m: Memory, m': Memory, root: nat, vaddr: nat, frames: seq<nat>, flags: Flags) {
    forall q: Page :: q.Valid() ==> View(m', root, q) == AfterFrames(View(m, root, q), q, vaddr, frames, flags)
  }

  lemma NoneBacked(m: Memory, root: nat, vaddr: nat, flags: Flags)
    ensures ViewsBacked(m, m, root, vaddr, [], flags)
  {
    hide View;
  }

  lemma OneBacked(m: Memory, m1: Memory, m': Memory, root: nat, vaddr: nat, frames: seq<nat>, flags: Flags, f: nat,
                  mapped: bool)
    requires ViewsBacked(m, m1, root, vaddr, frames, flags)
    requires forall q: Page :: q.Valid() ==>
               View(m', root, q) ==
               if mapped && q == PageOf(At(vaddr, |frames|)) then (if flags.p then To(f, flags.w, flags.u) else Fault)
               else View(m1, root, q)
    ensures ViewsBacked(m, m', root, vaddr, if mapped then frames + [f] else frames, flags)
  {
    hide View, PageOf, At;
    assert (frames + [f])[..|frames|] == frames;
  }

  lemma BackedWalks(m: Memory, m': Memory, root: nat, vaddr: nat, frames: seq<nat>, flags: Flags)
    requires Inv(m, root) && Inv(m', root) && ViewsBacked(m, m', root, vaddr, frames, flags)
    ensures forall q: Page :: q.Valid() ==>
              Walk(m', root, q) == AfterFrames(Walk(m, root, q), q, vaddr, frames, flags)
  {
    hide Inv, View, Walk, PageOf, At, AfterFrames;
    WalksAreViews(m, root);
    WalksAreViews(m', root);
  }

  lemma {:induction false} AfterFramesOutside(before: Translation, q: Page, vaddr: nat, frames: seq<nat>, flags: Flags)
    requires forall i: nat :: i < |frames| ==> PageOf(At(vaddr, i)) != q
    ensures AfterFrames(before, q, vaddr, frames, flags) == before
  {
    if frames != [] { AfterFramesOutside(before, q, vaddr, frames[..|frames| - 1], flags); }
  }

  /** In a range of at most 2^36 pages, page i is backed by frame i of the list. */
  lemma {:induction false} AfterFramesInside(before: Translation, vaddr: nat, frames: seq<nat>, flags: Flags, i: nat)
    requires i < |frames| <= VPAGES
    ensures AfterFrames(before, PageOf(At(vaddr, i)), vaddr, frames, flags) ==
            if flags.p then To(frames[i], flags.w, flags.u) else Fault
  {
    var n := |frames| - 1;
    if i < n {
      RangeIsInjective(vaddr, i, n);
      AfterFramesInside(before, vaddr, frames[..n], flags, i);
    }
  }

  /** In a longer one, by that of the last page at the same place of the tree. */
  lemma {:induction false} LastFrame(before: Translation, vaddr: nat, frames: seq<nat>, flags: Flags, i: nat)
    returns (k: nat)
    requires i < |frames|
    ensures i <= k < |frames| && (|frames| <= VPAGES ==> k == i)
    ensures AfterFrames(before, PageOf(At(vaddr, i)), vaddr, frames, flags) ==
            if flags.p then To(frames[k], flags.w, flags.u) else Fault
  {
    hide PageOf, At;
    var n := |frames| - 1;
    if |frames| <= VPAGES {
      AfterFramesInside(before, vaddr, frames, flags, i);
      k := i;
    } else if PageOf(At(vaddr, n)) == PageOf(At(vaddr, i)) {
      k := n;
    } else {
      k := LastFrame(before, vaddr, frames[..n], flags, i);
    }
  }

  /** The frame is filled with zero bytes. */
  predicate Zeroed(m: Memory, f: nat) { f in m && forall j :: 0 <= j < 512 ==> m[f][j] == ZERO_ENTRY }

  /** Data frames: pairwise distinct, zero-filled, formerly free, and not tables of the tree. */
  ghost predicate DataFrames(frames: seq<nat>, m: Memory, root: nat, free0: set<nat>, free: set<nat>) {
    && (forall i, j :: 0 <= i < j < |frames| ==> frames[i] != frames[j])
    && (forall i :: 0 <= i < |frames| ==> frames[i] in free0 && frames[i] !in free && Zeroed(m, frames[i]))
    && (forall i, l: Loc :: 0 <= i < |frames| && l.Depth() <= 3 ==> Node(m, root, l) != Some(frames[i]))
  }

  lemma DataTaken(frames: seq<nat>, m: Memory, root: nat, free0: set<nat>, free: set<nat>, f: nat)
    requires DataFrames(frames, m, root, free0, free) && f in free && free <= free0
    requires forall l: Loc :: l.Depth() <= 3 ==>
               Node(m[f := ZERO_TABLE], root, l) == Node(m, root, l) && Node(m, root, l) != Some(f)
    ensures DataFrames(frames + [f], m[f := ZERO_TABLE], root, free0, free - {f})
  {}

  lemma DataKept(frames: seq<nat>, m: Memory, m': Memory, root: nat, free0: set<nat>, free: set<nat>, free': set<nat>,
                 q: Page)
    requires DataFrames(frames, m, root, free0, free) && Grown(m, m', root, free, free', PathFrames(m, root, q))
    ensures DataFrames(frames, m', root, free0, free')
  {
    forall i | 0 <= i < |frames| ensures Zeroed(m', frames[i]) {
      OffPath(m, root, q, frames[i]);
    }
  }

  lemma OffPath(m: Memory, root: nat, q: Page, f: nat)
    requires forall l: Loc :: l.Depth() <= 3 ==> Node(m, root, l) != Some(f)
    ensures f !in PathFrames(m, root, q)
  {
    assert forall l :: l in Path(q) + {Top} ==> l.Depth() <= 3;
  }

  /** The frames ran out before a range of n backed pages was complete. */
  ghost predicate Stuck(m0: Memory, m: Memory, root: nat, free0: set<nat>, free: set<nat>, vaddr: nat, n: nat) {
    && Inv(m, root) && InUse(m, root, free) && free == {}
    && |free0| < n + TablesNeeded(m0, root, vaddr, n)
    && Grown(m0, m, root, free0, free, RangeFrames(m0, root, vaddr, n)) && NewOnly(m0, m, root, RangePath(vaddr, n))
  }

  lemma StuckReady(m0: Memory, m: Memory, root: nat, free0: set<nat>, free: set<nat>, vaddr: nat, n: nat)
    requires Stuck(m0, m, root, free0, free, vaddr, n)
    ensures Inv(m, root) && InUse(m, root, free) && free == {} && |free0| < n + TablesNeeded(m0, root, vaddr, n)
    ensures Grown(m0, m, root, free0, free, RangeFrames(m0, root, vaddr, n))
            && NewOnly(m0, m, root, RangePath(vaddr, n))
  {}

  lemma StuckHere(m0: Memory, m: Memory, root: nat, free0: set<nat>, free: set<nat>, vaddr: nat, data: nat, n: nat)
    requires Inv(m, root) && InUse(m, root, free) && free == {} && data <= n
    requires |free0| < TablesNeeded(m0, root, vaddr, n) + data
    requires Grown(m0, m, root, free0, free, RangeFrames(m0, root, vaddr, n))
             && NewOnly(m0, m, root, RangePath(vaddr, n))
    ensures Stuck(m0, m, root, free0, free, vaddr, n)
  {}

  lemma RangeOut(m0: Memory, m: Memory, root: nat, free0: set<nat>, vaddr: nat, i: nat, n: nat)
    requires RangeMapped(m0, m, root, free0, {}, vaddr, i, i) && i < n
    ensures Stuck(m0, m, root, free0, {}, vaddr, n)
  {
    RangeFramesMono(m0, root, vaddr, i, n);
    SubsetSize(MissingIn(m0, root, RangePath(vaddr, i)), MissingIn(m0, root, RangePath(vaddr, n)));
    GrownWider(m0, m, root, free0, {}, RangeFrames(m0, root, vaddr, i), RangeFrames(m0, root, vaddr, n));
  }

  lemma RangeReady(m0: Memory, m: Memory, root: nat, free0: set<nat>, free: set<nat>, vaddr: nat, i: nat, data: nat,
                   n: nat)
    requires RangeMapped(m0, m, root, free0, free, vaddr, i, data) && i <= n
    ensures Inv(m, root) && InUse(m, root, free) && free <= free0
    ensures Grown(m0, m, root, free0, free, RangeFrames(m0, root, vaddr, n))
            && NewOnly(m0, m, root, RangePath(vaddr, n))
    ensures i == n && data == n ==> |free0| >= n + TablesNeeded(m0, root, vaddr, n)
  {
    RangeFramesMono(m0, root, vaddr, i, n);
    GrownWider(m0, m, root, free0, free, RangeFrames(m0, root, vaddr, i), RangeFrames(m0, root, vaddr, n));
  }

  lemma RangeCount(m0: Memory, m: Memory, root: nat, free0: set<nat>, free: set<nat>, vaddr: nat, n: nat, data: nat)
    requires RangeMapped(m0, m, root, free0, free, vaddr, n, data)
    ensures |free| == |free0| - TablesNeeded(m0, root, vaddr, n) - data
  {}

  lemma TablesMono(m: Memory, root: nat, vaddr: nat, i: nat, n: nat)
    requires i <= n
    ensures TablesNeeded(m, root, vaddr, i) <= TablesNeeded(m, root, vaddr, n)
  {
    RangeFramesMono(m, root, vaddr, i, n);
    SubsetSize(MissingIn(m, root, RangePath(vaddr, i)), MissingIn(m, root, RangePath(vaddr, n)));
  }

  /** An unaligned address is refused: nothing changes. */
  lemma Unaligned(m: Memory, root: nat, free: set<nat>, vaddr: nat, n: nat)
    requires Inv(m, root) && InUse(m, root, free)
    ensures DataFrames([], m, root, free, free) && Grown(m, m, root, free, free, RangeFrames(m, root, vaddr, n))
    ensures NewOnly(m, m, root, RangePath(vaddr, n))
  {}

  lemma NoData(m: Memory, root: nat, free: set<nat>)
    ensures DataFrames([], m, root, free, free)
  {}

  lemma RequestedFrame(f: nat, flags: Flags)
    requires f < FRAME_BITS
    ensures Requested(f * 0x1000, flags) == if flags.p then To(f, flags.w, flags.u) else Fault
  {}

  /** After boot the kernel root is the only root of a sound system. */
  lemma BootSystem(m: Memory, free: set<nat>, total: nat, root: nat, pdp: nat, pds: seq<nat>)
    requires Built(m, root, pdp, pds) && BootInUse(root, pdp, pds, free, total) && Inv(m, root)
    requires forall f :: f in free ==> f < total
    ensures Sys(m, free, total, root, {root}, {}) && InUse(m, root, free)
  {
    forall l: Loc | l.Depth() <= 3 && Node(m, root, l).Some?
      ensures Node(m, root, l).value !in free && Node(m, root, l).value < total
    {
      BootInUseTree(m, root, pdp, pds, free, total, l);
    }
  }

  lemma DirectoryAddress(i: nat, j: nat)
    ensures (i * 1024 * 1024 * 1024 + j * 2 * 1024 * 1024) / 0x1000 == i * 0x40000 + j * 512
  {}

  lemma BuiltHasPdp(m: Memory, root: nat, pdp: nat, pds: seq<nat>)
    requires Built(m, root, pdp, pds)
    ensures root in m && pdp in m && root != pdp
  {}

  lemma BootApart(root: nat, pdp: nat, pds: seq<nat>, free: set<nat>, total: nat, f: nat)
    requires BootInUse(root, pdp, pds, free, total) && f in free
    ensures f != root && f != pdp
  {}

  lemma BootInUseFirst(root: nat, pdp: nat, free: set<nat>, total: nat)
    requires root !in free && pdp !in free && root < total && pdp < total
    ensures BootInUse(root, pdp, [], free, total)
  {}

  lemma CopyingTable(m0: Memory, m: Memory, free0: set<nat>, free: set<nat>, total: nat, k: nat,
                     roots: set<nat>, full: set<nat>, n: nat, done: set<Loc>, p: Loc, j: nat)
    requires Copying(m0, m, free0, free, total, k, roots, full, n, done)
    requires p.Depth() <= 1 && j < 512 && Node(m, n, p).Some? && Under(p, j) !in done
    ensures Has(m, n, p) && Node(m, n, Under(p, j)) == Node(m0, k, Under(p, j))
    ensures TableAt(m, n, p)[j].present <==> Node(m, n, Under(p, j)).Some?
    ensures TableAt(m, n, p)[j].present ==>
              Has(m, n, Under(p, j)) && TableAt(m, n, p)[j].frame !in free
                  && Node(m, n, Under(p, j)).value == TableAt(m, n, p)[j].frame
    ensures Node(m, n, p).value !in free
  {
    assert RootOk(m, n, free, total);
    assert Has(m, n, p);
    assert EntryOk(p.Depth(), TableAt(m, n, p)[j]);
  }

  lemma CopyingCount(m0: Memory, m: Memory, free0: set<nat>, free: set<nat>, total: nat, k: nat,
                     roots: set<nat>, full: set<nat>, n: nat, done: set<Loc>)
    requires Copying(m0, m, free0, free, total, k, roots, full, n, done)
    ensures |free| == |free0| - |done|
  {}

  lemma NotFull(m: Memory, free: set<nat>, total: nat, k: nat, roots: set<nat>, full: set<nat>)
    requires Sys(m, free, total, k, roots, full)
    ensures k !in full && 0 !in full && full <= roots
  {
    forall r | r in roots ensures r != 0 { assert RootOk(m, r, free, total) && Node(m, r, Top) == Some(r); }
  }

  /** Roots r and s are isolated on a range of the first 2 GB: one of them is a complete copy, and they share none of
      the range's page tables. */
  ghost predicate Isolated(m: Memory, full: set<nat>, r: nat, s: nat, vaddr: nat, n: nat) {
    (r in full || s in full) && forall i: nat :: i < n ==> AppPage(m, r, s, PageOf(At(vaddr, i)))
  }

  ghost predicate AppPage(m: Memory, r: nat, s: nat, q: Page) {
    q.a == 0 && q.b < 2 && Apart(m, r, s, PtLoc(q))
  }

  /** A page without a kernel page table (a 2 MB entry has none) at the time a process root is copied shares no page
      table between that root and any other. */
  lemma HugeSlotApart(m: Memory, k: nat, n: nat, s: nat, q: Page)
    requires forall l: Loc :: l.Depth() <= 3 && l !in Own() ==> Node(m, n, l) == Node(m, k, l)
    requires q.a == 0 && q.b < 2 && Node(m, k, PtLoc(q)).None?
    ensures AppPage(m, n, s, q) && AppPage(m, s, n, q)
  {
    assert PtLoc(q).Depth() == 3 && PtLoc(q) !in Own();
  }

  lemma RootReady(m: Memory, free: set<nat>, total: nat, k: nat, roots: set<nat>, full: set<nat>, r: nat)
    requires Sys(m, free, total, k, roots, full) && r in roots
    ensures Inv(m, r) && InUse(m, r, free) && r != 0
  {
    assert RootOk(m, r, free, total) && Node(m, r, Top) == Some(r);
  }

  /** On an isolated page, no table on r's path is a table of s. */
  lemma IsolatedPath(m: Memory, free: set<nat>, total: nat, k: nat, roots: set<nat>, full: set<nat>, r: nat, s: nat,
                     q: Page, l: Loc)
    requires Sys(m, free, total, k, roots, full) && r in roots && s in roots && s != r && (r in full || s in full)
    requires AppPage(m, r, s, q) && l.Depth() <= 3 && Node(m, s, l).Some?
    ensures Node(m, s, l).value !in PathFrames(m, r, q)
  {
    hide RootOk, SameSpot, Apart;
    forall p | p in Path(q) + {Top} && Node(m, r, p).Some? ensures Node(m, r, p) != Node(m, s, l) {
      assert p.Depth() <= 3;
      if p != PtLoc(q) {
        OwnPlaces();
        assert p in Own();
        assert Apart(m, r, s, p);
      }
      SpotUnreached(m, roots, r, s, p, l);
    }
  }

  lemma {:induction false} IsolatedRange(m: Memory, free: set<nat>, total: nat, k: nat, roots: set<nat>, full: set<nat>,
                                         r: nat, s: nat, vaddr: nat, n: nat, l: Loc)
    requires Sys(m, free, total, k, roots, full) && r in roots && s in roots && s != r
    requires Isolated(m, full, r, s, vaddr, n) && l.Depth() <= 3 && Node(m, s, l).Some?
    ensures Node(m, s, l).value !in RangeFrames(m, r, vaddr, n)
  {
    hide Sys, PageOf, At, PathFrames, Node;
    if n > 0 {
      IsolatedRange(m, free, total, k, roots, full, r, s, vaddr, n - 1, l);
      assert AppPage(m, r, s, PageOf(At(vaddr, n - 1)));
      IsolatedPath(m, free, total, k, roots, full, r, s, PageOf(At(vaddr, n - 1)), l);
    }
  }

  lemma IsolatedTouch(m: Memory, free: set<nat>, total: nat, k: nat, roots: set<nat>, full: set<nat>,
                      r: nat, vaddr: nat, n: nat)
    requires Sys(m, free, total, k, roots, full) && r in roots
    requires forall s :: s in roots && s != r ==> Isolated(m, full, r, s, vaddr, n)
    ensures forall s, l: Loc :: s in roots && s != r && l.Depth() <= 3 && Node(m, s, l).Some? ==>
              Node(m, s, l).value !in RangeFrames(m, r, vaddr, n)
  {
    forall s, l: Loc | s in roots && s != r && l.Depth() <= 3 && Node(m, s, l).Some?
      ensures Node(m, s, l).value !in RangeFrames(m, r, vaddr, n)
    {
      IsolatedRange(m, free, total, k, roots, full, r, s, vaddr, n, l);
    }
  }

  // ---------- mapping under one of several roots ----------

  /** What `AllocateVirtual` under root r reports and does to r's own translations. */
  ghost predicate Backed(m: Memory, m': Memory, free: set<nat>, free': set<nat>, r: nat, vaddr: nat, n: nat,
                         flags: Flags, ok: bool, frames: seq<nat>, done: nat) {
    && done <= |frames| <= n && (ok <==> vaddr % 0x1000 == 0 && |frames| == n)
    && (ok <==> Granted(m, r, vaddr, n, |free|))
    && (done == |frames| || (done == |frames| - 1 && free' == {}))
    && (vaddr % 0x1000 == 0 ==> (done == n <==> |free| >= n + TablesNeeded(m, r, vaddr, n)))
    && (!ok && vaddr % 0x1000 == 0 ==> free' == {})
    && (forall q: Page :: q.Valid() ==> Walk(m', r, q) == AfterFrames(Walk(m, r, q), q, vaddr, frames[..done], flags))
  }

  /** Every root that shares one of the first n pages of the range with r lets the user through to it. */
  ghost predicate Admits(m: Memory, r: nat, roots: set<nat>, vaddr: nat, n: nat) {
    forall s, i: nat :: s in roots && i < n && Shares(m, r, s, PageOf(At(vaddr, i))) ==>
      Gate(m, r, s, PtLoc(PageOf(At(vaddr, i))))
  }

  predicate Grants(t: Translation) { t.To? && t.u }

  /** Under r, the first n pages of the range have the rights asked for and all others their old translation. */
  ghost predicate Kinds(m: Memory, m': Memory, r: nat, vaddr: nat, n: nat, flags: Flags) {
    && (forall i: nat :: i < n ==> (Grants(Walk(m', r, PageOf(At(vaddr, i)))) <==> flags.p && flags.u))
    && (forall q: Page :: q.Valid() && (forall i: nat :: i < n ==> PageOf(At(vaddr, i)) != q) ==>
       Walk(m', r, q) == Walk(m, r, q))
  }

  lemma {:induction false} AfterGrants(before: Translation, vaddr: nat, paddr: nat, n: nat, flags: Flags, i: nat)
    requires i < n
    ensures Grants(After(before, PageOf(At(vaddr, i)), vaddr, paddr, n, flags)) <==> flags.p && flags.u
  {
    if PageOf(At(vaddr, n - 1)) != PageOf(At(vaddr, i)) { AfterGrants(before, vaddr, paddr, n - 1, flags, i); }
  }

  lemma {:induction false} AfterFramesGrants(before: Translation, vaddr: nat, frames: seq<nat>, flags: Flags, i: nat)
    requires i < |frames|
    ensures Grants(AfterFrames(before, PageOf(At(vaddr, i)), vaddr, frames, flags)) <==> flags.p && flags.u
  {
    var n := |frames| - 1;
    if PageOf(At(vaddr, n)) != PageOf(At(vaddr, i)) { AfterFramesGrants(before, vaddr, frames[..n], flags, i); }
  }

  lemma AfterKinds(m: Memory, m': Memory, r: nat, vaddr: nat, paddr: nat, n: nat, flags: Flags)
    requires forall q: Page :: q.Valid() ==> Walk(m', r, q) == After(Walk(m, r, q), q, vaddr, paddr, n, flags)
    ensures Kinds(m, m', r, vaddr, n, flags)
  {
    hide Walk, PageOf, At, Grants, Requested;
    forall i: nat | i < n ensures Grants(Walk(m', r, PageOf(At(vaddr, i)))) <==> flags.p && flags.u {
      AfterGrants(Walk(m, r, PageOf(At(vaddr, i))), vaddr, paddr, n, flags, i);
    }
    forall q: Page | q.Valid() && forall i: nat :: i < n ==> PageOf(At(vaddr, i)) != q
      ensures Walk(m', r, q) == Walk(m, r, q)
    {
      AfterOutside(Walk(m, r, q), q, vaddr, paddr, n, flags);
    }
  }

  lemma AfterFramesKinds(m: Memory, m': Memory, r: nat, vaddr: nat, frames: seq<nat>, flags: Flags)
    requires forall q: Page :: q.Valid() ==> Walk(m', r, q) == AfterFrames(Walk(m, r, q), q, vaddr, frames, flags)
    ensures Kinds(m, m', r, vaddr, |frames|, flags)
  {
    hide Walk, PageOf, At, Grants;
    forall i: nat | i < |frames| ensures Grants(Walk(m', r, PageOf(At(vaddr, i)))) <==> flags.p && flags.u {
      AfterFramesGrants(Walk(m, r, PageOf(At(vaddr, i))), vaddr, frames, flags, i);
    }
    forall q: Page | q.Valid() && forall i: nat :: i < |frames| ==> PageOf(At(vaddr, i)) != q
      ensures Walk(m', r, q) == Walk(m, r, q)
    {
      AfterFramesOutside(Walk(m, r, q), q, vaddr, frames, flags);
    }
  }

  /** Mapping touches tables of the tree only. */
  lemma {:induction false} RangeTables(m: Memory, r: nat, vaddr: nat, n: nat)
    ensures TablesOf(m, r, RangeFrames(m, r, vaddr, n))
  {
    hide PageOf, At, Node;
    if n > 0 {
      RangeTables(m, r, vaddr, n - 1);
      var q := PageOf(At(vaddr, n - 1));
      forall f | f in PathFrames(m, r, q) ensures exists l: Loc :: l.Depth() <= 3 && Node(m, r, l) == Some(f) {
        var l :| l in Path(q) + {Top} && Node(m, r, l).Some? && Node(m, r, l).value == f;
        assert l.Depth() <= 3;
      }
    }
  }

  /** The gates need to be open for the newly mapped user pages only. */
  lemma OpenedIff(m: Memory, m': Memory, free: set<nat>, free': set<nat>, total: nat, k: nat, roots: set<nat>,
                  full: set<nat>, r: nat, touched: set<nat>, vaddr: nat, n: nat, flags: Flags)
    requires Growth(m, m', free, free', total, k, roots, full, r, touched) && Kinds(m, m', r, vaddr, n, flags)
    ensures Opened(m, m', r, roots) <==> (flags.p && flags.u ==> Admits(m, r, roots, vaddr, n))
  {
    hide Walk, PageOf, At, View, Sys, Shares, Gate, Inv, InUse, Grown, TablesOf;
    GrowthFull(m, m', free, free', total, k, roots, full, r, touched);
    RootReady(m, free, total, k, roots, full, r);
    WalksAreViews(m, r);
    WalksAreViews(m', r);
    if Opened(m, m', r, roots) && flags.p && flags.u {
      forall s, i: nat | s in roots && i < n && Shares(m, r, s, PageOf(At(vaddr, i)))
        ensures Gate(m, r, s, PtLoc(PageOf(At(vaddr, i))))
      {
        PageOfValid(vaddr, i);
        assert UserPage(m', r, PageOf(At(vaddr, i)));
      }
    }
    if flags.p && flags.u ==> Admits(m, r, roots, vaddr, n) {
      forall s, q: Page | s in roots && q.Valid() && Shares(m, r, s, q) && UserPage(m', r, q)
        ensures Gate(m, r, s, PtLoc(q))
      {
        if i: nat :| i < n && PageOf(At(vaddr, i)) == q {
          assert Grants(Walk(m', r, PageOf(At(vaddr, i))));
        } else {
          SharedView(m, m', free, free', total, k, roots, full, r, touched, s, q);
          RootReady(m, free, total, k, roots, full, s);
          OldUserGate(m, r, s, q);
        }
      }
    }
  }

  lemma PageOfValid(vaddr: nat, i: nat)
    ensures PageOf(At(vaddr, i)).Valid()
  {}

  /** What mapping a range under r means to all roots of the system. */
  lemma RangeForAll(m: Memory, m': Memory, free: set<nat>, free': set<nat>, total: nat, k: nat, roots: set<nat>,
                    full: set<nat>, r: nat, vaddr: nat, n: nat, count: nat, flags: Flags)
    requires Sys(m, free, total, k, roots, full) && r in roots && Inv(m', r) && InUse(m', r, free')
    requires Grown(m, m', r, free, free', RangeFrames(m, r, vaddr, count)) && Kinds(m, m', r, vaddr, n, flags)
    ensures Growth(m, m', free, free', total, k, roots, full, r, RangeFrames(m, r, vaddr, count))
    ensures Seen(m, m', r, roots)
    ensures Sys(m', free', total, k, roots, full) <==> (flags.p && flags.u ==> Admits(m, r, roots, vaddr, n))
    ensures (forall s :: s in roots && s != r ==> Isolated(m, full, r, s, vaddr, count)) ==>
              Sys(m', free', total, k, roots, full) && StillApart(m, m', roots) && forall s :: s in roots && s != r ==>
                  Untouched(m, m', s)
  {
    hide Sys, Inv, InUse, Grown, RangeFrames, Kinds, Seen, Opened, Admits, Isolated, StillApart, Untouched, TablesOf;
    var touched := RangeFrames(m, r, vaddr, count);
    RangeTables(m, r, vaddr, count);
    GrowthOutcome(m, m', free, free', total, k, roots, full, r, touched);
    OpenedIff(m, m', free, free', total, k, roots, full, r, touched, vaddr, n, flags);
    if forall s :: s in roots && s != r ==> Isolated(m, full, r, s, vaddr, count) {
      IsolatedTouch(m, free, total, k, roots, full, r, vaddr, count);
      SysGrows(m, m', free, free', total, k, roots, full, r, touched);
    }
  }

  /** The same for a range backed with data frames, which are tables of no root. */
  lemma BackedForAll(m: Memory, m': Memory, free: set<nat>, free': set<nat>, total: nat, k: nat, roots: set<nat>,
                     full: set<nat>, r: nat, vaddr: nat, count: nat, flags: Flags, frames: seq<nat>, done: nat)
    requires Sys(m, free, total, k, roots, full) && r in roots && Inv(m', r) && InUse(m', r, free') && done <= |frames|
    requires Grown(m, m', r, free, free', RangeFrames(m, r, vaddr, count)) && DataFrames(frames, m', r, free, free')
    requires forall q: Page :: q.Valid() ==>
               Walk(m', r, q) == AfterFrames(Walk(m, r, q), q, vaddr, frames[..done], flags)
    ensures Seen(m, m', r, roots)
    ensures forall s :: s in roots ==> DataFrames(frames, m', s, free, free')
    ensures Sys(m', free', total, k, roots, full) <==> (flags.p && flags.u ==> Admits(m, r, roots, vaddr, done))
    ensures (forall s :: s in roots && s != r ==> Isolated(m, full, r, s, vaddr, count)) ==>
              Sys(m', free', total, k, roots, full) && StillApart(m, m', roots) && forall s :: s in roots && s != r ==>
                  Untouched(m, m', s)
  {
    hide Sys, Inv, InUse, Grown, RangeFrames, Kinds, Seen, Admits, Isolated, StillApart, Untouched, Walk, Growth;
    AfterFramesKinds(m, m', r, vaddr, frames[..done], flags);
    RangeForAll(m, m', free, free', total, k, roots, full, r, vaddr, done, count, flags);
    forall s | s in roots ensures DataFrames(frames, m', s, free, free') {
      DataForeign(frames, m, m', free, free', total, k, roots, full, r, RangeFrames(m, r, vaddr, count), s);
    }
  }

  /** The data frames of one root's allocation are tables of no root. */
  lemma DataForeign(frames: seq<nat>, m: Memory, m': Memory, free: set<nat>, free': set<nat>, total: nat, k: nat,
                    roots: set<nat>, full: set<nat>, r: nat, touched: set<nat>, s: nat)
    requires Growth(m, m', free, free', total, k, roots, full, r, touched) && s in roots
    requires DataFrames(frames, m', r, free, free')
    ensures DataFrames(frames, m', s, free, free')
  {
    hide Growth;
    forall i: nat | i < |frames| ensures forall l: Loc :: l.Depth() <= 3 ==> Node(m', s, l) != Some(frames[i]) {
      ForeignFrame(m, m', free, free', total, k, roots, full, r, touched, s, frames[i]);
    }
  }

  /** One page, one frame: the frame for the contents is there, the frames for its tables are not. */
  lemma OneTableShort(m: Memory, root: nat, vaddr: nat)
    requires Missing(m, root, PageOf(At(vaddr, 0))) != {}
    ensures PageCount(0x1000) == 1 && TablesNeeded(m, root, vaddr, 0) == 0 && TablesNeeded(m, root, vaddr, 1) > 0
  {
    hide PageOf, At;
    var q := PageOf(At(vaddr, 0));
    assert RangePath(vaddr, 1) == Path(q);
    assert MissingIn(m, root, RangePath(vaddr, 0)) == {};
  }

  // ---------- a copy cut short ----------

  /** With a single frame the new root shares the kernel's first page-directory-pointer table. */
  lemma SharedTop(m0: Memory, m: Memory, free0: set<nat>, free: set<nat>, k: nat, roots: set<nat>, n: nat)
    requires Created(m0, m, free0, free, k, roots, n, {Top}) && Untouched(m0, m, k) && Node(m0, k, L0).Some?
    ensures Node(m, n, L0).Some? && Node(m, n, L0) == Node(m, k, L0)
  {
    OwnPlaces();
  }

  /** The frames teardown gives back: those taken for the copies, and the kernel's where there is no copy. */
  lemma ShortCopy(m0: Memory, m: Memory, free0: set<nat>, free: set<nat>, k: nat, roots: set<nat>, n: nat,
                  done: set<Loc>)
    requires Created(m0, m, free0, free, k, roots, n, done) && Untouched(m0, m, k)
    ensures free + OwnFrames(m, n) == free0 + FramesAt(m0, k, Own() - done)
  {
    hide Walk, FramesAt;
    assert OwnFrames(m, n) == FramesAt(m, n, done) + FramesAt(m, n, Own() - done) by { FramesSplit(m, n, done, Own()); }
    OwnDepth();
    SameFrames(m, n, m0, k, Own() - done);
  }

  lemma FramesSplit(m: Memory, n: nat, done: set<Loc>, all: set<Loc>)
    requires done <= all
    ensures FramesAt(m, n, all) == FramesAt(m, n, done) + FramesAt(m, n, all - done)
  {}

  lemma SameFrames(m: Memory, n: nat, m0: Memory, k: nat, ls: set<Loc>)
    requires forall l :: l in ls ==> Node(m, n, l) == Node(m0, k, l)
    ensures FramesAt(m, n, ls) == FramesAt(m0, k, ls)
  {}

  /** Up to three frames do not suffice for the second page directory. */
  lemma LastNotCopied(m: Memory, k: nat, count: nat)
    requires count <= 3 && forall p :: p in Own() ==> Node(m, k, p).Some?
    ensures L01 !in Copied(m, k, count) && Node(m, k, L01).value in FramesAt(m, k, Own() - Copied(m, k, count))
  {
    CopiedIs(m, k, count);
    OwnPlaces();
  }

  lemma KernelTable(m: Memory, free: set<nat>, total: nat, k: nat, roots: set<nat>, full: set<nat>)
    requires Sys(m, free, total, k, roots, full)
    ensures k in m && k !in free && k in roots && 0 < k && full <= roots && 0 !in roots
  {
    assert RootOk(m, k, free, total) && Node(m, k, Top) == Some(k);
    forall r | r in roots ensures r != 0 { assert RootOk(m, r, free, total) && Node(m, r, Top) == Some(r); }
  }

  lemma NewIsPartial(m: Memory, free: set<nat>, total: nat, k: nat, roots: set<nat>, full: set<nat>, f: nat)
    requires Sys(m, free, total, k, roots, full) && f in free
    ensures f !in full && f !in roots
  {
    forall r | r in roots ensures r != f { assert RootOk(m, r, free, total) && Node(m, r, Top) == Some(r); }
  }

  /** The tables copied with a given number of free frames, case by case. */
  lemma CopiedIs(m: Memory, k: nat, count: nat)
    ensures count < 2 || Node(m, k, L0).None? ==> Copied(m, k, count) == {Top}
    ensures count >= 2 && Node(m, k, L0).Some? ==>
              var first := if count >= 3 && Node(m, k, L00).Some? then {Top} + {L0} + {L00} else {Top} + {L0};
              && Copied(m, k, count) == (if count > |first| && Node(m, k, L01).Some? then first + {L01} else first)
              && |{Top} + {L0}| == 2 && |{Top} + {L0} + {L00}| == 3
  {
    OwnPlaces();
    assert {Top, L0} == {Top} + {L0} && {Top, L0, L00} == {Top} + {L0} + {L00};
  }

  /** The copy is complete exactly with four free frames and the kernel's four tables. */
  lemma CopiedAll(m: Memory, k: nat, count: nat)
    requires count > 0
    ensures Copied(m, k, count) == Own() <==> count >= 4 && forall p :: p in Own() ==> Node(m, k, p).Some?
  {
    CopiedIs(m, k, count);
    OwnPlaces();
    assert Node(m, k, Top).Some?;
    assert L01 !in {Top} + {L0} + {L00} && L00 !in {Top} + {L0} + {L01} && L0 !in {Top};
    assert Own() == {Top} + {L0} + {L00} + {L01};
  }

  lemma OwnPlaces()
    ensures Top in Own() && L0 in Own() && L00 in Own() && L01 in Own()
    ensures Own() == {Top, L0, L00, L01}
    ensures L0 == Under(Top, 0) && L00 == Under(L0, 0) && L01 == Under(L0, 1)
    ensures L0.Depth() == 1 && L00.Depth() == 2 && L01.Depth() == 2
    ensures L0 != Top && L00 != L0 && L01 != L0 && L00 != L01 && L00 != Top && L01 != Top
  {}

  lemma RootHas(m: Memory, root: nat)
    requires Inv(m, root)
    ensures Node(m, root, Top) == Some(root) && root in m
    ensures AllUser(m, root, Top)
    ensures forall i: nat :: i < 512 ==> !m[root][i].huge
  {
    assert Has(m, root, Top);
    forall i: nat | i < 512 ensures !m[root][i].huge { assert EntryOk(0, TableAt(m, root, Top)[i]); }
  }

  lemma NoHugeAbove(m: Memory, root: nat, p: Loc, i: nat)
    requires Inv(m, root) && p.Depth() <= 1 && Has(m, root, p) && i < 512
    ensures !TableAt(m, root, p)[i].huge
  {
    assert EntryOk(p.Depth(), TableAt(m, root, p)[i]);
  }

  /** Progress leaves the tree ready for the next step. */
  lemma ProgressReady(m0: Memory, m: Memory, root: nat, free0: set<nat>, free: set<nat>, q: Page, gained: set<Loc>,
                      l: Loc)
    requires Progress(m0, m, root, free0, free, q, gained) && l.Depth() <= 3
    ensures Inv(m, root) && InUse(m, root, free)
    ensures Quiet(m0, m, root, free0, free, PathFrames(m0, root, q))
    ensures Node(m, root, l).Some? ==> Has(m, root, l)
  {}

  lemma ProgressEnough(m0: Memory, m: Memory, root: nat, free0: set<nat>, free: set<nat>, q: Page)
    requires Progress(m0, m, root, free0, free, q, Path(q))
    ensures |free0| >= |Missing(m0, root, q)| && NewOnly(m0, m, root, Path(q))
  {}
}

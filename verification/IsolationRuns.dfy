/** Runs of process roots that are created, given memory and destroyed while the kernel maps memory of its own: what
    each root sees in the area of its own pages, and where the data frames are. */
module IsolationRuns {
  import opened Prelude
  import opened MemoryManagement
  import opened PageTables
  import opened PageTree
  import opened PageSteps
  import opened PageBoot
  import opened ProcessTrees
  import opened SharedTrees
  import opened Paging

  /** Physical memory, its free frames, the roots, and those of them that are complete copies. */
  datatype World = World(m: Memory, free: set<nat>, roots: set<nat>, full: set<nat>)

  /** The frames `taken` back a range of n pages under root r; the first `done` of them are mapped. */
  datatype Act =
    | Create(root: nat)
    | Back(r: nat, vaddr: nat, n: nat, flags: Flags, taken: seq<nat>, done: nat)
    | Destroy(root: nat)

  /** The process area, as places of page tables below the two page directories every process has for itself. */
  predicate IsArea(area: set<Loc>) { forall l :: l in area ==> l.Under? && l.up in {L00, L01} }

  predicate Inside(area: set<Loc>, vaddr: nat, n: nat) {
    forall i: nat :: i < n ==> PtLoc(PageOf(At(vaddr, i))) in area
  }

  predicate Beside(area: set<Loc>, vaddr: nat, n: nat) {
    forall i: nat :: i < n ==> PtLoc(PageOf(At(vaddr, i))) !in area
  }

  /** A sound system of the kernel root and complete copies; the kernel has no page table in the process area, and no
      two roots share one there. */
  ghost predicate Good(w: World, total: nat, k: nat, area: set<Loc>) {
    && Sys(w.m, w.free, total, k, w.roots, w.full) && w.roots == w.full + {k} && IsArea(area)
    && (forall p :: p in Own() ==> Node(w.m, k, p).Some?)
    && (forall l :: l in area ==> Node(w.m, k, l).None?)
    && (forall s, t, l :: s in w.roots && t in w.roots && s != t && l in area ==> Apart(w.m, s, t, l))
  }

  /** One action: a process root created with four frames or more, a range backed (inside the area for a process,
      beside it for the kernel), or a process root destroyed. Kernel pages open to the user must be so for the roots
      sharing them. */
  ghost predicate Step(w: World, w': World, total: nat, k: nat, area: set<Loc>, act: Act) {
    match act
    case Create(n) =>
      && Created(w.m, w'.m, w.free, w'.free, k, w.roots, n, Own()) && Sys(w'.m, w'.free, total, k, w'.roots, w'.full)
      && w'.roots == w.roots + {n} && w'.full == w.full + {n}
    case Back(r, vaddr, n, flags, taken, done) =>
      && r in w.roots && w'.roots == w.roots && w'.full == w.full && done <= |taken|
      && (if r == k then Beside(area, vaddr, n) else Inside(area, vaddr, n))
      && (r == k && flags.p && flags.u ==> Admits(w.m, k, w.roots, vaddr, done))
      && Inv(w'.m, r) && InUse(w'.m, r, w'.free) && DataFrames(taken, w'.m, r, w.free, w'.free) && done <= n
      && Grown(w.m, w'.m, r, w.free, w'.free, RangeFrames(w.m, r, vaddr, n))
         && NewOnly(w.m, w'.m, r, RangePath(vaddr, n))
      && forall q: Page :: q.Valid() ==>
         Walk(w'.m, r, q) == AfterFrames(Walk(w.m, r, q), q, vaddr, taken[..done], flags)
    case Destroy(r) =>
      && r in w.full && w'.m == TornDown(w.m, r) && w'.free == w.free + OwnFrames(w.m, r)
      && w'.roots == w.roots - {r} && w'.full == w.full - {r}
  }

  // ---------- backing a range ----------

  /** A page of the area shares no table between two roots. */
  lemma AreaUnshared(w: World, total: nat, k: nat, area: set<Loc>, s: nat, t: nat, q: Page)
    requires Good(w, total, k, area) && s in w.roots && t in w.roots && s != t && PtLoc(q) in area
    ensures !Shares(w.m, s, t, q)
  {
    hide Sys, Apart;
    OwnNotJoint(w.m, w.free, total, k, w.roots, w.full, s, t, PdLoc(q));
    assert Apart(w.m, s, t, PtLoc(q));
    ApartNotJoint(w.m, s, t, PtLoc(q));
  }

  lemma ApartNotJoint(m: Memory, s: nat, t: nat, l: Loc)
    requires l.Under? && !Joint(m, s, t, l.up)
    ensures Apart(m, s, t, l) <==> !Joint(m, s, t, l)
  {}

  /** A root lets the user through to all it shares with itself. */
  lemma {:induction false} SelfGate(m: Memory, r: nat, l: Loc)
    ensures Gate(m, r, r, l) && Joint(m, r, r, l)
  {
    if l.Under? { SelfGate(m, r, l.up); }
  }

  /** A process may open the pages of its area to the user. */
  lemma AreaAdmits(w: World, total: nat, k: nat, area: set<Loc>, r: nat, vaddr: nat, n: nat, done: nat)
    requires Good(w, total, k, area) && r in w.roots && Inside(area, vaddr, n) && done <= n
    ensures Admits(w.m, r, w.roots, vaddr, done)
  {
    hide Good, PageOf, At, Gate, Shares;
    forall s, i: nat | s in w.roots && i < done && Shares(w.m, r, s, PageOf(At(vaddr, i)))
      ensures Gate(w.m, r, s, PtLoc(PageOf(At(vaddr, i))))
    {
      if s == r {
        SelfGate(w.m, r, PtLoc(PageOf(At(vaddr, i))));
      } else {
        AreaUnshared(w, total, k, area, r, s, PageOf(At(vaddr, i)));
      }
    }
  }

  /** Backing a range keeps the system, and every root sees what the sharing theorem says. */
  lemma BackOutcome(w: World, w': World, total: nat, k: nat, area: set<Loc>, act: Act)
    requires Good(w, total, k, area) && act.Back? && Step(w, w', total, k, area, act)
    ensures Growth(w.m, w'.m, w.free, w'.free, total, k, w.roots, w.full, act.r,
            RangeFrames(w.m, act.r, act.vaddr, act.n))
    ensures Seen(w.m, w'.m, act.r, w.roots) && Sys(w'.m, w'.free, total, k, w'.roots, w'.full)
    ensures forall s :: s in w.roots ==> DataFrames(act.taken, w'.m, s, w.free, w'.free)
  {
    hide Sys, Inv, InUse, Grown, NewOnly, RangeFrames, RangePath, Walk, Seen, Admits, Isolated, DataFrames, Growth,
         Inside, Beside, Apart, Kinds;
    if act.r != k { AreaAdmits(w, total, k, area, act.r, act.vaddr, act.n, act.done); }
    AfterFramesKinds(w.m, w'.m, act.r, act.vaddr, act.taken[..act.done], act.flags);
    RangeForAll(w.m, w'.m, w.free, w'.free, total, k, w.roots, w.full, act.r, act.vaddr, act.done, act.n, act.flags);
    forall s | s in w.roots ensures DataFrames(act.taken, w'.m, s, w.free, w'.free) {
      DataForeign(act.taken, w.m, w'.m, w.free, w'.free, total, k, w.roots, w.full, act.r,
                  RangeFrames(w.m, act.r, act.vaddr, act.n), s);
    }
  }

  /** A range beside the area needs no table in it. */
  lemma {:induction false} BesidePath(area: set<Loc>, vaddr: nat, n: nat)
    requires IsArea(area) && Beside(area, vaddr, n)
    ensures RangePath(vaddr, n) !! area
  {
    hide PageOf, At;
    if n > 0 {
      BesidePath(area, vaddr, n - 1);
      var q := PageOf(At(vaddr, n - 1));
      assert PtLoc(q) !in area;
      forall l | l in Path(q) ensures l !in area { if l in area { assert l.Depth() == 3; } }
    }
  }

  lemma BackGood(w: World, w': World, total: nat, k: nat, area: set<Loc>, act: Act)
    requires Good(w, total, k, area) && act.Back? && Step(w, w', total, k, area, act)
    ensures Good(w', total, k, area)
  {
    hide Sys, Inv, InUse, Grown, RangeFrames, RangePath, Walk, Admits, Isolated, DataFrames, Growth, Inside, Beside,
         Joint, Apart, Own;
    BackOutcome(w, w', total, k, area, act);
    var touched := RangeFrames(w.m, act.r, act.vaddr, act.n);
    OwnDepth();
    KernelTable(w.m, w.free, total, k, w.roots, w.full);
    forall p | p in Own() ensures Node(w'.m, k, p).Some? {
      TableStays(w.m, w'.m, w.free, w'.free, total, k, w.roots, w.full, act.r, touched, k, p);
    }
    forall l | l in area ensures Node(w'.m, k, l).None? { BackArea(w, w', total, k, area, act, l); }
    forall s, t, l | s in w.roots && t in w.roots && s != t && l in area ensures Apart(w'.m, s, t, l) {
      assert l.Depth() <= 3;
      AreaJoint(w.m, w.free, total, k, w.roots, w.full, area, s, t, l);
      assert !Joint(w'.m, s, t, l);
      NotJointApart(w'.m, s, t, l);
    }
  }

  lemma AreaJoint(m: Memory, free: set<nat>, total: nat, k: nat, roots: set<nat>, full: set<nat>, area: set<Loc>,
                  s: nat, t: nat, l: Loc)
    requires Sys(m, free, total, k, roots, full) && roots == full + {k} && IsArea(area) && l in area
    requires s in roots && t in roots && s != t && Apart(m, s, t, l)
    ensures !Joint(m, s, t, l)
  {
    hide Sys, Apart;
    OwnNotJoint(m, free, total, k, roots, full, s, t, l.up);
    ApartNotJoint(m, s, t, l);
  }

  /** The kernel gets no page table in the area. */
  lemma BackArea(w: World, w': World, total: nat, k: nat, area: set<Loc>, act: Act, l: Loc)
    requires Good(w, total, k, area) && act.Back? && Step(w, w', total, k, area, act) && l in area
    ensures Node(w'.m, k, l).None?
  {
    hide Sys, Inv, InUse, Grown, RangeFrames, RangePath, Walk, Admits, Isolated, DataFrames, Growth, Inside, Beside,
         Apart, Seen, Joint;
    assert l.Depth() == 3;
    if act.r == k {
      BesidePath(area, act.vaddr, act.n);
    } else {
      BackOutcome(w, w', total, k, area, act);
      KernelTable(w.m, w.free, total, k, w.roots, w.full);
      SharedNode(w.m, w'.m, w.free, w'.free, total, k, w.roots, w.full, act.r,
                 RangeFrames(w.m, act.r, act.vaddr, act.n), k, l);
      assert Apart(w.m, act.r, k, l);
      AreaJoint(w.m, w.free, total, k, w.roots, w.full, area, act.r, k, l);
    }
  }

  // ---------- creating and destroying ----------

  lemma CreateGood(w: World, w': World, total: nat, k: nat, area: set<Loc>, n: nat)
    requires Good(w, total, k, area) && Step(w, w', total, k, area, Create(n))
    ensures Good(w', total, k, area)
  {
    hide Sys, Walk, FramesAt;
    assert Untouched(w.m, w'.m, k) by { KernelTable(w.m, w.free, total, k, w.roots, w.full); }
    forall s, t, l | s in w'.roots && t in w'.roots && s != t && l in area ensures Apart(w'.m, s, t, l) {
      assert l.Depth() == 3 && l !in Own();
      assert Node(w'.m, n, l) == Node(w'.m, k, l) == Node(w.m, k, l) == None;
      if s != n && t != n { assert Apart(w.m, s, t, l) && Untouched(w.m, w'.m, s) && Untouched(w.m, w'.m, t); }
    }
  }

  lemma DestroyGood(w: World, w': World, total: nat, k: nat, area: set<Loc>, r: nat)
    requires Good(w, total, k, area) && Step(w, w', total, k, area, Destroy(r))
    ensures Good(w', total, k, area)
    ensures forall s :: s in w'.roots ==> Untouched(w.m, w'.m, s)
  {
    hide Sys, Walk, FramesAt, TornDown, OwnFrames;
    KernelTable(w.m, w.free, total, k, w.roots, w.full);
    NotFull(w.m, w.free, total, k, w.roots, w.full);
    TornDownOwn(w.m, w.free, total, k, w.roots, w.full, r);
    SysFree(w.m, w'.m, w.free, total, k, w.roots, w.full, r);
    assert Untouched(w.m, w'.m, k);
    OwnDepth();
    forall l | l in area ensures l.Depth() <= 3 {}
  }

  /** Every action keeps the system and the separation in the area. */
  lemma StepGood(w: World, w': World, total: nat, k: nat, area: set<Loc>, act: Act)
    requires Good(w, total, k, area) && Step(w, w', total, k, area, act)
    ensures Good(w', total, k, area)
  {
    hide Good, Step;
    match act
    case Create(n) => CreateGood(w, w', total, k, area, n);
    case Back(_, _, _, _, _, _) => BackGood(w, w', total, k, area, act);
    case Destroy(r) => DestroyGood(w, w', total, k, area, r);
  }

  // ---------- what a root sees ----------

  /** The translation of an area page under root s, going by the actions on s alone: the kernel's at its creation, then
      whatever s itself was given. */
  function OwnView(base: Translation, acts: seq<Act>, s: nat, q: Page): Translation {
    if acts == [] then base
    else
      var act, before := acts[|acts| - 1], OwnView(base, acts[..|acts| - 1], s, q);
      match act
      case Create(n) => if n == s then base else before
      case Back(r, vaddr, _, flags, taken, done) =>
        if r == s then AfterFrames(before, q, vaddr, First(taken, done), flags) else before
      case Destroy(_) => before
  }

  function First(taken: seq<nat>, done: nat): seq<nat> { if done <= |taken| then taken[..done] else taken }

  /** What one action does to an area page under a root that is there afterwards. */
  lemma StepView(w: World, w': World, total: nat, k: nat, area: set<Loc>, act: Act, s: nat, q: Page)
    requires Good(w, total, k, area) && Step(w, w', total, k, area, act) && s in w'.roots && q.Valid()
             && PtLoc(q) in area
    ensures act == Create(s) || s in w.roots
    ensures act == Create(s) ==> Walk(w'.m, s, q) == Walk(w.m, k, q)
    ensures act.Back? && act.r == s ==>
              Walk(w'.m, s, q) == AfterFrames(Walk(w.m, s, q), q, act.vaddr, First(act.taken, act.done), act.flags)
    ensures act != Create(s) && !(act.Back? && act.r == s) ==> Walk(w'.m, s, q) == Walk(w.m, s, q)
  {
    hide Sys, Walk, Inv, InUse, Grown, NewOnly, RangeFrames, RangePath, Admits, DataFrames, Growth, Inside, Beside,
         Shares, AfterFrames, TornDown, OwnFrames, FramesAt;
    match act
    case Create(n) =>
      if s != n { assert Untouched(w.m, w'.m, s); }
    case Back(r, _, _, _, _, _) =>
      if s != r {
        BackOutcome(w, w', total, k, area, act);
        AreaUnshared(w, total, k, area, r, s, q);
      }
    case Destroy(r) =>
      DestroyGood(w, w', total, k, area, r);
      assert Untouched(w.m, w'.m, s);
  }

  /** A sequence of worlds linked by actions. */
  ghost predicate Run(ws: seq<World>, total: nat, k: nat, area: set<Loc>, acts: seq<Act>) {
    && |ws| == |acts| + 1 && Good(ws[0], total, k, area) && ws[0].roots == {k}
    && forall i :: 0 <= i < |acts| ==> Step(ws[i], ws[i + 1], total, k, area, acts[i])
  }

  lemma RunPrefix(ws: seq<World>, total: nat, k: nat, area: set<Loc>, acts: seq<Act>)
    requires Run(ws, total, k, area, acts) && acts != []
    ensures Run(ws[..|acts|], total, k, area, acts[..|acts| - 1])
    ensures Step(ws[|acts| - 1], ws[|acts|], total, k, area, acts[|acts| - 1])
  {
    hide Good, Step;
    forall i | 0 <= i < |acts| - 1
      ensures Step(ws[..|acts|][i], ws[..|acts|][i + 1], total, k, area, acts[..|acts| - 1][i])
    {
      assert Step(ws[i], ws[i + 1], total, k, area, acts[i]);
    }
  }

  /** Over every run the system stays sound and the area separate. */
  lemma {:induction false} RunGood(ws: seq<World>, total: nat, k: nat, area: set<Loc>, acts: seq<Act>)
    requires Run(ws, total, k, area, acts)
    ensures Good(ws[|acts|], total, k, area)
    decreases |acts|
  {
    hide Good, Step;
    if acts != [] {
      RunPrefix(ws, total, k, area, acts);
      RunGood(ws[..|acts|], total, k, area, acts[..|acts| - 1]);
      StepGood(ws[|acts| - 1], ws[|acts|], total, k, area, acts[|acts| - 1]);
    }
  }

  /** Isolation over every run: what a root sees in the area is what its own actions made of the kernel's translation.
      Nothing the kernel or another process does shows. */
  lemma {:induction false} Isolation(ws: seq<World>, total: nat, k: nat, area: set<Loc>, acts: seq<Act>, s: nat,
                                     q: Page)
    requires Run(ws, total, k, area, acts) && s in ws[|acts|].roots && q.Valid() && PtLoc(q) in area
    ensures Walk(ws[|acts|].m, s, q) == OwnView(Walk(ws[0].m, k, q), acts, s, q)
    decreases |acts|
  {
    hide Good, Step, Walk;
    if acts != [] {
      var n := |acts|;
      RunPrefix(ws, total, k, area, acts);
      RunGood(ws[..n], total, k, area, acts[..n - 1]);
      StepView(ws[n - 1], ws[n], total, k, area, acts[n - 1], s, q);
      if acts[n - 1] == Create(s) {
        KernelAreaKept(ws[..n], total, k, area, acts[..n - 1], q);
      } else {
        Isolation(ws[..n], total, k, area, acts[..n - 1], s, q);
      }
    } else {
      assert s == k;
    }
  }

  /** The kernel's own translation of the area never changes. */
  lemma {:induction false} KernelAreaKept(ws: seq<World>, total: nat, k: nat, area: set<Loc>, acts: seq<Act>, q: Page)
    requires Run(ws, total, k, area, acts) && q.Valid() && PtLoc(q) in area
    ensures Walk(ws[|acts|].m, k, q) == Walk(ws[0].m, k, q)
    decreases |acts|
  {
    hide Good, Walk, Step;
    if acts != [] {
      var n := |acts|;
      RunPrefix(ws, total, k, area, acts);
      KernelAreaKept(ws[..n], total, k, area, acts[..n - 1], q);
      RunGood(ws[..n], total, k, area, acts[..n - 1]);
      KernelStep(ws[n - 1], ws[n], total, k, area, acts[n - 1], q);
    }
  }

  lemma KernelStep(w: World, w': World, total: nat, k: nat, area: set<Loc>, act: Act, q: Page)
    requires Good(w, total, k, area) && Step(w, w', total, k, area, act) && q.Valid() && PtLoc(q) in area
    ensures Walk(w'.m, k, q) == Walk(w.m, k, q)
  {
    hide Sys, Walk, Inv, InUse, Grown, NewOnly, RangeFrames, RangePath, Admits, DataFrames, TornDown, OwnFrames,
         Created;
    KernelTable(w.m, w.free, total, k, w.roots, w.full);
    NotFull(w.m, w.free, total, k, w.roots, w.full);
    if act.Create? { assert act.root != k by { NewRoot(w, w', total, k, area, act.root); } }
    StepView(w, w', total, k, area, act, k, q);
    if act.Back? && act.r == k {
      AfterFramesOutside(Walk(w.m, k, q), q, act.vaddr, First(act.taken, act.done), act.flags);
    }
  }

  lemma NewRoot(w: World, w': World, total: nat, k: nat, area: set<Loc>, n: nat)
    requires Step(w, w', total, k, area, Create(n))
    ensures n !in w.roots && n in w.free
  {}

  // ---------- data frames ----------

  /** The frames an action takes to back pages. */
  function DataOf(act: Act): set<nat> { if act.Back? then set f | f in act.taken else {} }

  function Taken(acts: seq<Act>): set<nat> {
    if acts == [] then {} else Taken(acts[..|acts| - 1]) + DataOf(acts[|acts| - 1])
  }

  /** None of the frames in d is free or a table of some root. */
  ghost predicate Held(w: World, d: set<nat>) {
    d !! w.free && forall s, l: Loc :: s in w.roots && l.Depth() <= 3 && Node(w.m, s, l).Some? ==>
        Node(w.m, s, l).value !in d
  }

  /** Tables come from the tables there were and from free frames. */
  lemma StepTables(w: World, w': World, total: nat, k: nat, area: set<Loc>, act: Act, s: nat, l: Loc)
    requires Good(w, total, k, area) && Step(w, w', total, k, area, act) && s in w'.roots && l.Depth() <= 3
             && Node(w'.m, s, l).Some?
    ensures Node(w'.m, s, l).value in w.free || exists t :: t in w.roots && Node(w.m, t, l) == Node(w'.m, s, l)
  {
    hide Sys, Walk, Inv, InUse, NewOnly, RangeFrames, RangePath, Admits, DataFrames, Growth, Inside, Beside,
         AfterFrames, TornDown, Joint;
    KernelTable(w.m, w.free, total, k, w.roots, w.full);
    match act
    case Create(n) =>
      assert Untouched(w.m, w'.m, k);
      if s != n { assert Untouched(w.m, w'.m, s); }
      else if l in Own() { assert Node(w'.m, n, l).value in FramesAt(w'.m, n, Own()); }
      else { assert Node(w'.m, n, l) == Node(w.m, k, l); }
    case Back(r, vaddr, n, _, _, _) =>
      BackOutcome(w, w', total, k, area, act);
      SharedNode(w.m, w'.m, w.free, w'.free, total, k, w.roots, w.full, r, RangeFrames(w.m, r, vaddr, n), s, l);
      KeptNode(w.m, w'.m, r, w.free, w'.free, RangeFrames(w.m, r, vaddr, n), l);
    case Destroy(r) =>
      DestroyGood(w, w', total, k, area, r);
      assert Untouched(w.m, w'.m, s);
  }

  lemma StepHeld(w: World, w': World, total: nat, k: nat, area: set<Loc>, act: Act, d: set<nat>)
    requires Good(w, total, k, area) && Step(w, w', total, k, area, act) && Held(w, d)
    ensures Held(w', d)
  {
    hide Good, Step, Walk;
    forall s, l: Loc | s in w'.roots && l.Depth() <= 3 && Node(w'.m, s, l).Some? ensures Node(w'.m, s, l).value !in d {
      StepTables(w, w', total, k, area, act, s, l);
    }
    StepFree(w, w', total, k, area, act, d);
  }

  lemma StepFree(w: World, w': World, total: nat, k: nat, area: set<Loc>, act: Act, d: set<nat>)
    requires Good(w, total, k, area) && Step(w, w', total, k, area, act) && Held(w, d)
    ensures d !! w'.free
  {
    hide Sys, Walk, Inv, InUse, NewOnly, RangeFrames, RangePath, Admits, DataFrames, Inside, Beside, AfterFrames,
         TornDown;
    OwnDepth();
    if act.Destroy? {
      NotFull(w.m, w.free, total, k, w.roots, w.full);
      assert act.root in w.roots;
    }
  }

  /** Frames just taken are held. */
  lemma StepHolds(w: World, w': World, total: nat, k: nat, area: set<Loc>, act: Act)
    requires Good(w, total, k, area) && Step(w, w', total, k, area, act)
    ensures Held(w', DataOf(act)) && DataOf(act) <= w.free
  {
    hide Sys, Walk, Inv, InUse, Grown, NewOnly, RangeFrames, RangePath, Admits, Inside, Beside, AfterFrames, Growth,
         Seen, Good;
    if act.Back? {
      BackOutcome(w, w', total, k, area, act);
      forall f | f in DataOf(act)
        ensures f in w.free && f !in w'.free && forall s, l: Loc :: s in w.roots && l.Depth() <= 3 ==>
                  Node(w'.m, s, l) != Some(f)
      {
        var i :| 0 <= i < |act.taken| && act.taken[i] == f;
      }
    }
  }

  /** Over every run, no frame taken to back a page is ever free again, taken again or made a page table, under any
      root. */
  lemma {:induction false} DataSafe(ws: seq<World>, total: nat, k: nat, area: set<Loc>, acts: seq<Act>)
    requires Run(ws, total, k, area, acts)
    ensures Held(ws[|acts|], Taken(acts))
    ensures forall i, j :: 0 <= i < j < |acts| ==> DataOf(acts[i]) !! DataOf(acts[j])
    decreases |acts|
  {
    hide Good, Step, Held, DataOf;
    if acts == [] {
      HeldNone(ws[0]);
    } else {
      var n := |acts|;
      var act, before := acts[n - 1], acts[..n - 1];
      RunPrefix(ws, total, k, area, acts);
      DataSafe(ws[..n], total, k, area, before);
      RunGood(ws[..n], total, k, area, before);
      StepHeld(ws[n - 1], ws[n], total, k, area, act, Taken(before));
      StepHolds(ws[n - 1], ws[n], total, k, area, act);
      HeldBoth(ws[n], Taken(before), DataOf(act));
      HeldApart(ws[n - 1], Taken(before));
      forall i, j | 0 <= i < j < n ensures DataOf(acts[i]) !! DataOf(acts[j]) {
        if j < n - 1 { assert before[i] == acts[i] && before[j] == acts[j]; } else { TakenHas(before, i); }
      }
    }
  }

  lemma HeldNone(w: World)
    ensures Held(w, {})
  {}

  lemma HeldBoth(w: World, d: set<nat>, e: set<nat>)
    requires Held(w, d) && Held(w, e)
    ensures Held(w, d + e)
  {}

  lemma HeldApart(w: World, d: set<nat>)
    requires Held(w, d)
    ensures d !! w.free
  {}

  lemma {:induction false} TakenHas(acts: seq<Act>, i: nat)
    requires i < |acts|
    ensures DataOf(acts[i]) <= Taken(acts)
  {
    if i < |acts| - 1 { TakenHas(acts[..|acts| - 1], i); }
  }

  // ---------- pages that are not shared ----------

  /** The kernel root and complete copies of it, with no condition on where the kernel has page tables. */
  ghost predicate Sound(w: World, total: nat, k: nat) {
    Sys(w.m, w.free, total, k, w.roots, w.full) && w.roots == w.full + {k}
  }

  /** An action of any root on any range. */
  ghost predicate Move(w: World, w': World, total: nat, k: nat, act: Act) {
    if !act.Back? then Step(w, w', total, k, {}, act)
    else
      && act.r in w.roots && w'.roots == w.roots && w'.full == w.full && act.done <= |act.taken| && act.done <= act.n
      && (act.flags.p && act.flags.u ==> Admits(w.m, act.r, w.roots, act.vaddr, act.done))
      && Inv(w'.m, act.r) && InUse(w'.m, act.r, w'.free)
      && Grown(w.m, w'.m, act.r, w.free, w'.free, RangeFrames(w.m, act.r, act.vaddr, act.n))
      && forall q: Page :: q.Valid() ==>
           Walk(w'.m, act.r, q) == AfterFrames(Walk(w.m, act.r, q), q, act.vaddr, act.taken[..act.done], act.flags)
  }

  /** No other root shares a table on the walk of s to page q. */
  ghost predicate Alone(w: World, s: nat, q: Page) {
    forall t :: t in w.roots && t != s ==> !Shares(w.m, t, s, q)
  }

  lemma MoveGrows(w: World, w': World, total: nat, k: nat, act: Act)
    requires Sound(w, total, k) && act.Back? && Move(w, w', total, k, act)
    ensures Seen(w.m, w'.m, act.r, w.roots) && Sound(w', total, k)
  {
    hide Sys, Inv, InUse, Grown, RangeFrames, Walk, Seen, Admits, Isolated, Growth, Kinds;
    AfterFramesKinds(w.m, w'.m, act.r, act.vaddr, act.taken[..act.done], act.flags);
    RangeForAll(w.m, w'.m, w.free, w'.free, total, k, w.roots, w.full, act.r, act.vaddr, act.done, act.n, act.flags);
  }

  lemma MoveFrees(w: World, w': World, total: nat, k: nat, r: nat)
    requires Sound(w, total, k) && Move(w, w', total, k, Destroy(r))
    ensures Sound(w', total, k) && forall s :: s in w'.roots ==> Untouched(w.m, w'.m, s)
  {
    hide Sys, Walk, TornDown, OwnFrames;
    NotFull(w.m, w.free, total, k, w.roots, w.full);
    TornDownOwn(w.m, w.free, total, k, w.roots, w.full, r);
    SysFree(w.m, w'.m, w.free, total, k, w.roots, w.full, r);
  }

  lemma MoveSound(w: World, w': World, total: nat, k: nat, act: Act)
    requires Sound(w, total, k) && Move(w, w', total, k, act)
    ensures Sound(w', total, k)
  {
    hide Sys, Walk, Created;
    match act
    case Create(n) =>
    case Back(_, _, _, _, _, _) => MoveGrows(w, w', total, k, act);
    case Destroy(r) => MoveFrees(w, w', total, k, r);
  }

  /** Sharing is a matter of where the tables are. */
  lemma {:induction false} JointSame(m: Memory, m': Memory, s: nat, t: nat, l: Loc)
    requires Untouched(m, m', s) && Untouched(m, m', t) && l.Depth() <= 3
    ensures Joint(m', s, t, l) <==> Joint(m, s, t, l)
  {
    hide Untouched;
    UntouchedAt(m, m', s, l);
    UntouchedAt(m, m', t, l);
    if l.Under? { JointSame(m, m', s, t, l.up); }
  }

  lemma UntouchedAt(m: Memory, m': Memory, s: nat, l: Loc)
    requires Untouched(m, m', s) && l.Depth() <= 3
    ensures Node(m', s, l) == Node(m, s, l)
  {}

  /** A new root n has tables of its own or the kernel's: another root shares with it only what it shares with the
      kernel. */
  lemma {:induction false} NewJoint(w: World, w': World, total: nat, k: nat, n: nat, t: nat, l: Loc)
    requires Sound(w, total, k) && Move(w, w', total, k, Create(n)) && t in w.roots && l.Depth() <= 3
             && Joint(w'.m, n, t, l)
    ensures Joint(w'.m, n, k, l) && Joint(w'.m, k, t, l)
  {
    hide Walk, Sys;
    if l.Under? && Joint(w'.m, n, t, l.up) {
      NewJoint(w, w', total, k, n, t, l.up);
    } else if l in Own() {
      OwnFrameNew(w, w', total, k, n, t, l);
    }
  }

  lemma OwnFrameNew(w: World, w': World, total: nat, k: nat, n: nat, t: nat, l: Loc)
    requires Sound(w, total, k) && Move(w, w', total, k, Create(n)) && t in w.roots && l in Own()
    ensures Node(w'.m, n, l).None? || Node(w'.m, n, l) != Node(w'.m, t, l)
  {
    hide Walk, SameSpot, Private;
    assert RootOk(w.m, t, w.free, total);
    OwnDepth();
    assert Untouched(w.m, w'.m, t);
    UntouchedAt(w.m, w'.m, t, l);
    if Node(w'.m, n, l).Some? { assert Node(w'.m, n, l).value in FramesAt(w'.m, n, Own()); }
  }

  lemma {:induction false} JointSym(m: Memory, s: nat, t: nat, l: Loc)
    ensures Joint(m, s, t, l) <==> Joint(m, t, s, l)
  {
    if l.Under? { JointSym(m, s, t, l.up); }
  }

  /** A page that the new root does not share with the kernel it shares with nobody. */
  lemma CreatedAlone(w: World, w': World, total: nat, k: nat, n: nat, q: Page)
    requires Sound(w, total, k) && Move(w, w', total, k, Create(n)) && q.Valid() && !Shares(w'.m, k, n, q)
    ensures Alone(w', n, q) && n in w'.roots
  {
    hide Sys, Walk, Joint, Sound, Created;
    forall t | t in w'.roots && t != n ensures !Shares(w'.m, t, n, q) {
      if Shares(w'.m, t, n, q) {
        JointSym(w'.m, t, n, PtLoc(q));
        NewJoint(w, w', total, k, n, t, PtLoc(q));
        JointSym(w'.m, n, k, PtLoc(q));
      }
    }
  }

  /** What nobody shares with s stays unshared, with roots created later too, and changes by the actions of s only. */
  lemma MoveAlone(w: World, w': World, total: nat, k: nat, act: Act, s: nat, q: Page)
    requires Sound(w, total, k) && Move(w, w', total, k, act) && s in w.roots && s in w'.roots && q.Valid()
             && Alone(w, s, q)
    requires s == k ==> !act.Create?
    ensures Alone(w', s, q) && act != Create(s)
    ensures Walk(w'.m, s, q) == if act.Back? && act.r == s
            then AfterFrames(Walk(w.m, s, q), q, act.vaddr, First(act.taken, act.done), act.flags)
                                else Walk(w.m, s, q)
  {
    hide Sys, Walk, Joint, Inv, InUse, Grown, RangeFrames, Admits, AfterFrames, TornDown, OwnFrames, FramesAt;
    match act
    case Create(n) =>
      KernelTable(w.m, w.free, total, k, w.roots, w.full);
      assert Untouched(w.m, w'.m, s);
      forall t | t in w'.roots && t != s ensures !Shares(w'.m, t, s, q) { NewSharesNot(w, w', total, k, n, s, t, q); }
    case Back(r, _, _, _, _, _) =>
      MoveGrows(w, w', total, k, act);
      assert r != s ==> !Shares(w.m, r, s, q);
    case Destroy(r) =>
      MoveFrees(w, w', total, k, r);
      assert Untouched(w.m, w'.m, s);
      forall t | t in w'.roots && t != s ensures !Shares(w'.m, t, s, q) {
        assert Untouched(w.m, w'.m, t);
        JointSame(w.m, w'.m, t, s, PtLoc(q));
      }
  }

  lemma NewSharesNot(w: World, w': World, total: nat, k: nat, n: nat, s: nat, t: nat, q: Page)
    requires Sound(w, total, k) && Move(w, w', total, k, Create(n)) && k in w.roots && s in w.roots && s != k
             && q.Valid() && Alone(w, s, q)
    requires t in w'.roots && t != s
    ensures !Shares(w'.m, t, s, q)
  {
    hide Sys, Walk, Joint, FramesAt;
    assert Untouched(w.m, w'.m, s) && Untouched(w.m, w'.m, k) && !Shares(w.m, k, s, q);
    if t == n {
      if Joint(w'.m, n, s, PtLoc(q)) {
        NewJoint(w, w', total, k, n, s, PtLoc(q));
        JointSame(w.m, w'.m, k, s, PtLoc(q));
      }
    } else {
      assert Untouched(w.m, w'.m, t);
      JointSame(w.m, w'.m, t, s, PtLoc(q));
    }
  }

  ghost predicate Moves(ws: seq<World>, total: nat, k: nat, acts: seq<Act>) {
    |ws| == |acts| + 1 && Sound(ws[0], total, k) && forall i :: 0 <= i < |acts| ==>
        Move(ws[i], ws[i + 1], total, k, acts[i])
  }

  /** Over every run: a page that a process root shares with nobody stays that way for as long as the root lives,
      whatever the kernel and the other roots map there, and is what the root's own actions make of it. */
  lemma {:induction false} StaysAlone(ws: seq<World>, total: nat, k: nat, acts: seq<Act>, s: nat, q: Page)
    requires Moves(ws, total, k, acts) && s != k && q.Valid() && Alone(ws[0], s, q) && forall i :: 0 <= i < |ws| ==>
               s in ws[i].roots
    ensures Sound(ws[|acts|], total, k) && Alone(ws[|acts|], s, q)
    ensures Walk(ws[|acts|].m, s, q) == OwnView(Walk(ws[0].m, s, q), acts, s, q)
    decreases |acts|
  {
    hide Sound, Move, Alone, Walk, AfterFrames;
    if acts != [] {
      var n := |acts|;
      var before := ws[..n];
      forall i | 0 <= i < n - 1 ensures Move(before[i], before[i + 1], total, k, acts[..n - 1][i]) {
        assert Move(ws[i], ws[i + 1], total, k, acts[i]);
      }
      StaysAlone(before, total, k, acts[..n - 1], s, q);
      MoveSound(ws[n - 1], ws[n], total, k, acts[n - 1]);
      MoveAlone(ws[n - 1], ws[n], total, k, acts[n - 1], s, q);
    }
  }

  /** Every step of the runs above is such an action. */
  lemma StepIsMove(w: World, w': World, total: nat, k: nat, area: set<Loc>, act: Act)
    requires Good(w, total, k, area) && Step(w, w', total, k, area, act)
    ensures Sound(w, total, k) && Move(w, w', total, k, act)
  {
    hide Sys, Walk, Inv, InUse, Grown, NewOnly, RangeFrames, RangePath, Admits, DataFrames, Inside, Beside, TornDown,
         OwnFrames, Created;
    if act.Back? && act.r != k { AreaAdmits(w, total, k, area, act.r, act.vaddr, act.n, act.done); }
  }

  // ---------- the page manager takes these steps ----------

  ghost function Now(pm: PageManager): World
    reads pm, pm.mm, pm.mm.bitmap, pm.mm.bitmap.buffer
  {
    World(pm.mem, pm.Free(), pm.roots, pm.full)
  }

  /** Every run can start from boot, with any area. */
  method Boot(pm: PageManager, ghost area: set<Loc>)
    requires pm.Frames() && |pm.Free()| >= 66 && IsArea(area)
    modifies pm, pm.mm.bitmap.buffer
    ensures pm.Frames() && Good(Now(pm), pm.mm.Total(), pm.pml4, area) && pm.roots == {pm.pml4}
    ensures forall q: Page :: q.Valid() ==>
              Walk(pm.mem, pm.pml4, q) == if q.Number() < 64 * 0x40000 then To(q.Number(), true, true) else Fault
  {
    hide PageManager.Frames, Sys, Walk, Own, Built, Inv, MemoryManager.Valid, MemoryManager.FreeSet;
    ghost var pdp, pds := pm.Initialize();
    BootPlaces(pm.mem, pm.pml4, pdp, pds, area);
  }

  lemma BootPlaces(m: Memory, k: nat, pdp: nat, pds: seq<nat>, area: set<Loc>)
    requires Built(m, k, pdp, pds) && |pds| == 64 && IsArea(area)
    ensures forall p :: p in Own() ==> Node(m, k, p).Some?
    ensures forall l :: l in area ==> Node(m, k, l).None?
  {
    hide Built;
    OwnDepth();
    forall p | p in Own() ensures Node(m, k, p).Some? { BootNode(m, k, pdp, pds, p); }
    forall l | l in area ensures Node(m, k, l).None? {
      assert l.Depth() == 3;
      BootNode(m, k, pdp, pds, l);
    }
  }

  method CreateRoot(pm: PageManager, ghost area: set<Loc>) returns (cr3: nat)
    requires pm.Frames() && Good(Now(pm), pm.mm.Total(), pm.pml4, area) && |pm.Free()| >= 4
    modifies pm`mem, pm`roots, pm`full, pm.mm.bitmap.buffer
    ensures pm.Frames() && Step(old(Now(pm)), Now(pm), pm.mm.Total(), pm.pml4, area, Create(cr3))
            && Good(Now(pm), pm.mm.Total(), pm.pml4, area)
  {
    hide PageManager.Frames, Sys, Walk, Own, Created, MemoryManager.Valid, MemoryManager.FreeSet;
    ghost var own;
    cr3, own := pm.CreateProcessPageTable();
    CreateGood(old(Now(pm)), Now(pm), pm.mm.Total(), pm.pml4, area, cr3);
  }

  method BackProcess(pm: PageManager, r: nat, vaddr: nat, size: nat, flags: Flags, ghost area: set<Loc>)
    returns (ok: bool, ghost act: Act)
    requires pm.Frames() && Good(Now(pm), pm.mm.Total(), pm.pml4, area) && r in pm.full
             && Inside(area, vaddr, PageCount(size))
    modifies pm`mem, pm`pml4, pm.mm.bitmap.buffer
    ensures pm.Frames() && pm.pml4 == old(pm.pml4)
    ensures act.Back? && act.r == r && act.vaddr == vaddr && act.n == PageCount(size) && act.flags == flags
    ensures Step(old(Now(pm)), Now(pm), pm.mm.Total(), pm.pml4, area, act)
            && Good(Now(pm), pm.mm.Total(), pm.pml4, area)
  {
    hide PageManager.Frames, Sys, Walk, Own, MemoryManager.Valid, MemoryManager.FreeSet, Grown, NewOnly, DataFrames,
         Seen, Admits, RangeFrames, RangePath, PageCount, Inside, Isolated;
    ghost var w := Now(pm);
    NotFull(pm.mem, pm.Free(), pm.mm.Total(), pm.pml4, pm.roots, pm.full);
    AreaAdmits(w, pm.mm.Total(), pm.pml4, area, r, vaddr, PageCount(size), 0);
    ghost var frames, done;
    ok, frames, done := pm.AllocateVirtualForProcess(r, vaddr, size, flags);
    AreaAdmits(w, pm.mm.Total(), pm.pml4, area, r, vaddr, PageCount(size), done);
    RootReady(pm.mem, pm.Free(), pm.mm.Total(), pm.pml4, pm.roots, pm.full, r);
    act := Back(r, vaddr, PageCount(size), flags, frames, done);
    BackGood(w, Now(pm), pm.mm.Total(), pm.pml4, area, act);
  }

  method BackKernel(pm: PageManager, vaddr: nat, size: nat, flags: Flags, ghost area: set<Loc>)
    returns (ok: bool, ghost act: Act)
    requires pm.Frames() && Sound(Now(pm), pm.mm.Total(), pm.pml4)
    requires flags.p && flags.u ==> Admits(pm.mem, pm.pml4, pm.roots, vaddr, PageCount(size))
    modifies pm`mem, pm.mm.bitmap.buffer
    ensures pm.Frames() && act.Back? && act.r == pm.pml4 && act.vaddr == vaddr && act.n == PageCount(size)
            && act.flags == flags
    ensures Move(old(Now(pm)), Now(pm), pm.mm.Total(), pm.pml4, act) && Sound(Now(pm), pm.mm.Total(), pm.pml4)
    ensures Good(old(Now(pm)), pm.mm.Total(), pm.pml4, area) && Beside(area, vaddr, PageCount(size)) ==>
              Step(old(Now(pm)), Now(pm), pm.mm.Total(), pm.pml4, area, act)
                   && Good(Now(pm), pm.mm.Total(), pm.pml4, area)
  {
    hide PageManager.Frames, Sys, Walk, Own, MemoryManager.Valid, MemoryManager.FreeSet, Grown, NewOnly, DataFrames,
         Seen, RangeFrames, RangePath, PageCount, Beside, Isolated, Shares, Gate, PageOf, At, Good;
    ghost var w := Now(pm);
    KernelTable(pm.mem, pm.Free(), pm.mm.Total(), pm.pml4, pm.roots, pm.full);
    ghost var frames, done;
    ok, frames, done := pm.KernelAllocateVirtual(vaddr, size, flags);
    RootReady(pm.mem, pm.Free(), pm.mm.Total(), pm.pml4, pm.roots, pm.full, pm.pml4);
    act := Back(pm.pml4, vaddr, PageCount(size), flags, frames, done);
    if Good(w, pm.mm.Total(), pm.pml4, area) && Beside(area, vaddr, PageCount(size)) {
      BackGood(w, Now(pm), pm.mm.Total(), pm.pml4, area, act);
    }
  }

  method DestroyRoot(pm: PageManager, r: nat, ghost area: set<Loc>)
    requires pm.Frames() && Good(Now(pm), pm.mm.Total(), pm.pml4, area) && r in pm.full
    modifies pm`mem, pm`roots, pm`full, pm.mm.bitmap.buffer
    ensures pm.Frames() && Step(old(Now(pm)), Now(pm), pm.mm.Total(), pm.pml4, area, Destroy(r))
            && Good(Now(pm), pm.mm.Total(), pm.pml4, area)
  {
    hide PageManager.Frames, Sys, Walk, Own, MemoryManager.Valid, MemoryManager.FreeSet, OwnFrames, TornDown;
    NotFull(pm.mem, pm.Free(), pm.mm.Total(), pm.pml4, pm.roots, pm.full);
    pm.FreeProcessPageTable(r);
    DestroyGood(old(Now(pm)), Now(pm), pm.mm.Total(), pm.pml4, area, r);
  }
}

/** Several roots over one memory: the kernel's and those of processes, which share most of their tables. */
module ProcessTrees {
  import opened Prelude
  import opened PageTables
  import opened PageTree
  import opened PageSteps

  // ---------- moving one table of a tree to another frame ----------

  /** The tree of root' in m' is the tree of root in m, except that the table at place p now lives in frame f. */
  ghost predicate Moved(m: Memory, root: nat, m': Memory, root': nat, p: Loc, f: nat) {
    && (forall l: Loc :: l.Depth() <= 3 ==> Node(m', root', l) == if l == p then Some(f) else Node(m, root, l))
    && (forall l: Loc :: l.Depth() <= 3 ==> Has(m', root', l) == Has(m, root, l))
    && (forall l: Loc, i: nat :: l.Depth() <= 3 && i < 512 && Has(m', root', l) ==>
          SameOrRelinked(TableAt(m, root, l)[i], TableAt(m', root', l)[i], p == Under(l, i)))
  }

  /** The entry is unchanged, or it is the link that was redirected. */
  predicate SameOrRelinked(e: Entry, e': Entry, relinked: bool) {
    e' == e || (relinked && Link(e) && e' == e.(frame := e'.frame))
  }

  lemma {:induction false} MovedUser(m: Memory, root: nat, m': Memory, root': nat, p: Loc, f: nat, l: Loc)
    requires Moved(m, root, m', root', p, f) && l.Depth() <= 3
    ensures AllUser(m', root', l) == AllUser(m, root, l)
  {
    match l
    case Top =>
    case Under(k, i) =>
      MovedUser(m, root, m', root', p, f, k);
      if Has(m, root, k) && i < 512 {
        assert SameOrRelinked(TableAt(m, root, k)[i], TableAt(m', root', k)[i], p == Under(k, i));
      }
  }

  /** A moved table keeps the invariant. */
  lemma MovedInv(m: Memory, root: nat, m': Memory, root': nat, p: Loc, f: nat)
    requires Inv(m, root) && Moved(m, root, m', root', p, f) && p.Depth() <= 3
    requires 0 < f < FRAME_BITS && f in m' && forall l: Loc :: l.Depth() <= 3 ==> Node(m, root, l) != Some(f)
    ensures Inv(m', root')
  {
    forall l: Loc, i: nat | l.Depth() <= 2 && i < 512 && Has(m', root', l)
      ensures EntryOk(l.Depth(), TableAt(m', root', l)[i])
    {
      assert SameOrRelinked(TableAt(m, root, l)[i], TableAt(m', root', l)[i], p == Under(l, i));
      assert EntryOk(l.Depth(), TableAt(m, root, l)[i]);
    }
    forall l: Loc, i: nat | l.Depth() <= 3 && i < 512 && Has(m', root', l)
      && UserLeaf(l.Depth(), TableAt(m', root', l)[i])
      ensures AllUser(m', root', l)
    {
      assert SameOrRelinked(TableAt(m, root, l)[i], TableAt(m', root', l)[i], p == Under(l, i));
      assert UserLeaf(l.Depth(), TableAt(m, root, l)[i]) by { if l.Depth() == 3 { assert p != Under(l, i); } }
      MovedUser(m, root, m', root', p, f, l);
    }
    forall l: Loc | l.Depth() <= 3 && Node(m', root', l).Some?
      ensures Node(m', root', l).value in m' && 0 < Node(m', root', l).value < FRAME_BITS
    {
      if l != p { assert Has(m, root, l); assert Has(m', root', l); }
    }
  }

  /** A moved table keeps every translation. */
  lemma MovedView(m: Memory, root: nat, m': Memory, root': nat, p: Loc, f: nat, q: Page)
    requires Moved(m, root, m', root', p, f) && p.Depth() <= 3 && q.Valid()
    ensures View(m', root', q) == View(m, root, q)
  {
    if Has(m, root, PdLoc(q)) {
      assert SameOrRelinked(TableAt(m, root, PdLoc(q))[q.c], TableAt(m', root', PdLoc(q))[q.c],
        p == Under(PdLoc(q), q.c));
    }
    if Has(m, root, PtLoc(q)) {
      assert Under(PtLoc(q), q.d).Depth() == 4;
      assert SameOrRelinked(TableAt(m, root, PtLoc(q))[q.d], TableAt(m', root', PtLoc(q))[q.d],
        p == Under(PtLoc(q), q.d));
    }
  }

  // (a) A copy of the root table is the root of the same tree.

  lemma {:induction false} CopiedRootNode(m: Memory, k: nat, f: nat, l: Loc)
    requires Inv(m, k) && (forall l: Loc :: l.Depth() <= 3 ==> Node(m, k, l) != Some(f)) && l.Depth() <= 3
    ensures k in m && Node(m[f := m[k]], f, l) == if l == Top then Some(f) else Node(m, k, l)
  {
    assert Node(m, k, Top) == Some(k);
    match l
    case Top =>
    case Under(p, i) =>
      CopiedRootNode(m, k, f, p);
  }

  lemma CopiedRoot(m: Memory, k: nat, f: nat)
    requires Inv(m, k) && (forall l: Loc :: l.Depth() <= 3 ==> Node(m, k, l) != Some(f))
    ensures k in m && Moved(m, k, m[f := m[k]], f, Top, f)
  {
    assert Node(m, k, Top) == Some(k);
    var m' := m[f := m[k]];
    forall l: Loc | l.Depth() <= 3
      ensures Node(m', f, l) == if l == Top then Some(f) else Node(m, k, l)
      ensures Has(m', f, l) == Has(m, k, l)
      ensures Has(m', f, l) ==> TableAt(m', f, l) == TableAt(m, k, l)
    {
      CopiedRootNode(m, k, f, l);
      if Node(m, k, l).Some? { assert Node(m, k, l) != Some(f); }
    }
  }

  // (b) A table replaced by a copy of itself.

  /** The memory after the table at (p, i) was copied to frame f and the link redirected. */
  function Recopied(m: Memory, root: nat, p: Loc, i: nat, f: nat): Memory
    requires Has(m, root, p) && i < 512 && Has(m, root, Under(p, i))
  {
    var t := Node(m, root, p).value;
    var m1 := m[f := TableAt(m, root, Under(p, i))];
    if t in m1 then Poke(m1, t, i, WithFrame(m1[t][i], f)) else m1
  }

  lemma {:induction false} RecopiedNode(m: Memory, root: nat, p: Loc, i: nat, f: nat, l: Loc)
    requires Inv(m, root) && (forall l: Loc :: l.Depth() <= 3 ==> Node(m, root, l) != Some(f)) && f < FRAME_BITS
    requires p.Depth() <= 2 && Has(m, root, p) && i < 512 && Has(m, root, Under(p, i)) && l.Depth() <= 3
    ensures Node(Recopied(m, root, p, i, f), root, l) == if l == Under(p, i) then Some(f) else Node(m, root, l)
  {
    match l
    case Top =>
    case Under(k, j) =>
      RecopiedNode(m, root, p, i, f, k);
      if Node(m, root, k).Some? {
        assert Has(m, root, k);
        if k != p { assert Node(m, root, k) != Node(m, root, p); }
      }
  }

  lemma RecopiedMoved(m: Memory, root: nat, p: Loc, i: nat, f: nat)
    requires Inv(m, root) && (forall l: Loc :: l.Depth() <= 3 ==> Node(m, root, l) != Some(f)) && f < FRAME_BITS
    requires p.Depth() <= 2 && Has(m, root, p) && i < 512 && Has(m, root, Under(p, i))
    ensures Moved(m, root, Recopied(m, root, p, i, f), root, Under(p, i), f)
  {
    var m' := Recopied(m, root, p, i, f);
    forall l: Loc | l.Depth() <= 3
      ensures Node(m', root, l) == if l == Under(p, i) then Some(f) else Node(m, root, l)
      ensures Has(m', root, l) == Has(m, root, l)
      ensures Has(m', root, l) ==> forall j: nat :: j < 512 ==>
                SameOrRelinked(TableAt(m, root, l)[j], TableAt(m', root, l)[j], Under(p, i) == Under(l, j))
    {
      RecopiedNode(m, root, p, i, f, l);
      if Node(m, root, l).Some? { assert Has(m, root, l); }
      assert Under(p, i).Depth() != p.Depth();
      if l != p && l != Under(p, i) && Has(m, root, l) {
        assert Node(m, root, l) != Node(m, root, p);
      }
    }
  }

  // ---------- the system of roots ----------

  const L0 := Under(Top, 0)
  const L00 := Under(L0, 0)
  const L01 := Under(L0, 1)

  /** The places whose tables a process gets its own copy of. */
  function Own(): set<Loc> { {Top, L0, L00, L01} }

  /** A table shared by two roots sits at the same place under both. */
  ghost predicate SameSpot(m: Memory, roots: set<nat>) {
    forall r, s, l: Loc, k: Loc ::
      (r in roots && s in roots && l.Depth() <= 3 && k.Depth() <= 3
       && Node(m, r, l).Some? && Node(m, r, l) == Node(m, s, k)) ==> l == k
  }

  /** The roots r and s do not share the table at l. */
  ghost predicate Apart(m: Memory, r: nat, s: nat, l: Loc) {
    Node(m, r, l).None? || Node(m, r, l) != Node(m, s, l)
  }

  /** A fully copied root shares none of its four own tables with any other root. */
  ghost predicate Private(m: Memory, roots: set<nat>, full: set<nat>) {
    forall r, s, p :: r in roots && s in roots && r != s && (r in full || s in full) && p in Own() ==> Apart(m, r, s, p)
  }

  ghost predicate Managed(m: Memory, root: nat, total: nat) {
    forall l: Loc :: l.Depth() <= 3 && Node(m, root, l).Some? ==> Node(m, root, l).value < total
  }

  ghost predicate RootOk(m: Memory, r: nat, free: set<nat>, total: nat) {
    Inv(m, r) && InUse(m, r, free) && Managed(m, r, total)
  }

  /** The kernel root k and the process roots, of which `full` were copied completely. */
  ghost predicate Sys(m: Memory, free: set<nat>, total: nat, k: nat, roots: set<nat>, full: set<nat>) {
    && k in roots && full <= roots - {k}
    && (forall f :: f in free ==> f < total)
    && (forall r :: r in roots ==> RootOk(m, r, free, total))
    && SameSpot(m, roots)
    && Private(m, roots, full)
    && (forall r, p :: r in full && p in Own() ==> Node(m, r, p).Some?)
  }

  /** The tables of root s are the same ones, with the same contents, in m'. */
  ghost predicate Untouched(m: Memory, m': Memory, s: nat) {
    && (forall l: Loc :: l.Depth() <= 3 ==> Node(m', s, l) == Node(m, s, l))
    && (forall q: Page :: q.Valid() ==> Walk(m', s, q) == Walk(m, s, q))
  }

  lemma AgreesUntouched(m: Memory, m': Memory, s: nat, free: set<nat>, free': set<nat>, total: nat)
    requires RootOk(m, s, free, total) && Agrees(m, m', s) && free' <= free
    ensures Untouched(m, m', s) && RootOk(m', s, free', total)
  {
    AgreesKeeps(m, m', s);
    forall q: Page | q.Valid() ensures Walk(m', s, q) == Walk(m, s, q) {
      WalkIsView(m, s, q);
      WalkIsView(m', s, q);
    }
  }

  /** Tables not shared in m are not shared in m'. */
  ghost predicate StillApart(m: Memory, m': Memory, roots: set<nat>) {
    forall s, t, l: Loc :: s in roots && t in roots && s != t && l.Depth() <= 3 && Apart(m, s, t, l) ==>
      Apart(m', s, t, l)
  }

  // (1) Growth of one root's tree.

  /** Growing the tree of r changes nothing for a root none of whose tables were touched. */
  lemma GrowthAgrees(m: Memory, m': Memory, r: nat, s: nat, free: set<nat>, free': set<nat>, touched: set<nat>,
                     total: nat)
    requires RootOk(m, s, free, total) && Grown(m, m', r, free, free', touched)
    requires forall l: Loc :: l.Depth() <= 3 && Node(m, s, l).Some? ==> Node(m, s, l).value !in touched
    ensures Agrees(m, m', s)
  {}

  /** Growing one root's tree without touching tables of the others keeps the system and everything the others see. */
  lemma SysGrows(m: Memory, m': Memory, free: set<nat>, free': set<nat>, total: nat, k: nat, roots: set<nat>,
                 full: set<nat>, r: nat, touched: set<nat>)
    requires Sys(m, free, total, k, roots, full) && r in roots
    requires Grown(m, m', r, free, free', touched) && Inv(m', r) && InUse(m', r, free')
    requires forall s, l: Loc :: s in roots && s != r && l.Depth() <= 3 && Node(m, s, l).Some? ==>
               Node(m, s, l).value !in touched
    ensures Sys(m', free', total, k, roots, full)
    ensures forall s :: s in roots && s != r ==> Untouched(m, m', s)
    ensures StillApart(m, m', roots)
  {
    hide Inv, InUse, Own, Walk, Grown, Node, Apart;
    OwnDepth();
    GrownParts(m, m', r, free, free', touched);
    forall s | s in roots && s != r ensures Untouched(m, m', s) && RootOk(m', s, free', total) {
      GrowthAgrees(m, m', r, s, free, free', touched, total);
      AgreesUntouched(m, m', s, free, free', total);
    }
    GrownManaged(m, m', r, free, free', touched, total);
    forall s, t, l: Loc, j: Loc | s in roots && t in roots && l.Depth() <= 3 && j.Depth() <= 3
      && Node(m', s, l).Some? && Node(m', s, l) == Node(m', t, j)
      ensures l == j
    {
      GrownSpot(m, m', free, free', total, k, roots, full, r, touched, s, t, l, j);
    }
    forall s, t, l: Loc | s in roots && t in roots && s != t && l.Depth() <= 3 && Apart(m, s, t, l)
      ensures Apart(m', s, t, l)
    {
      GrownApart(m, m', free, free', total, k, roots, full, r, touched, s, t, l);
    }
    forall s, p | s in full && p in Own() ensures Node(m', s, p).Some? {
      if s != r { assert Untouched(m, m', s); }
    }
  }

  lemma GrownParts(m: Memory, m': Memory, r: nat, free: set<nat>, free': set<nat>, touched: set<nat>)
    requires Grown(m, m', r, free, free', touched)
    ensures free' <= free && forall l: Loc :: l.Depth() <= 3 && Node(m, r, l).Some? ==> Node(m', r, l) == Node(m, r, l)
  {}

  lemma OwnDepth()
    ensures forall p :: p in Own() ==> p.Depth() <= 3
  {}

  lemma GrownManaged(m: Memory, m': Memory, r: nat, free: set<nat>, free': set<nat>, touched: set<nat>, total: nat)
    requires Managed(m, r, total) && Grown(m, m', r, free, free', touched) && (forall f :: f in free ==> f < total)
    ensures Managed(m', r, total)
  {}

  lemma GrownSpot(m: Memory, m': Memory, free: set<nat>, free': set<nat>, total: nat, k: nat, roots: set<nat>,
                  full: set<nat>, r: nat, touched: set<nat>, s: nat, t: nat, l: Loc, j: Loc)
    requires Sys(m, free, total, k, roots, full) && r in roots && s in roots && t in roots
    requires Grown(m, m', r, free, free', touched) && Inv(m', r)
    requires forall s :: s in roots && s != r ==> Untouched(m, m', s)
    requires l.Depth() <= 3 && j.Depth() <= 3 && Node(m', s, l).Some? && Node(m', s, l) == Node(m', t, j)
    ensures l == j
  {
    if s == r && t == r {
    } else if s == r {
      assert Node(m', t, j) == Node(m, t, j);
      assert RootOk(m, t, free, total);
    } else if t == r {
      assert Node(m', s, l) == Node(m, s, l);
      assert RootOk(m, s, free, total);
    } else {
      assert Node(m', s, l) == Node(m, s, l) && Node(m', t, j) == Node(m, t, j);
    }
  }

  lemma GrownApart(m: Memory, m': Memory, free: set<nat>, free': set<nat>, total: nat, k: nat, roots: set<nat>,
                   full: set<nat>, r: nat, touched: set<nat>, s: nat, t: nat, l: Loc)
    requires Sys(m, free, total, k, roots, full) && r in roots && s in roots && t in roots
    requires Grown(m, m', r, free, free', touched)
    requires forall s :: s in roots && s != r ==> Untouched(m, m', s)
    requires l.Depth() <= 3 && s != t && Apart(m, s, t, l)
    ensures Apart(m', s, t, l)
  {
    assert RootOk(m, s, free, total) && RootOk(m, t, free, total);
    if s == r {
      assert Node(m', t, l) == Node(m, t, l);
    } else if t == r {
      assert Node(m', s, l) == Node(m, s, l);
    } else {
      assert Node(m', s, l) == Node(m, s, l) && Node(m', t, l) == Node(m, t, l);
    }
  }

  // (2) A new root.

  /** Filling a free frame is invisible to every root. */
  lemma FillAgrees(m: Memory, f: nat, t: Table, s: nat, free: set<nat>, total: nat)
    requires RootOk(m, s, free, total) && f in free
    ensures Agrees(m, m[f := t], s)
  {}

  /** A copy of the kernel's root table, in a free frame, is a new root with the kernel's tree. */
  lemma SysNewRoot(m: Memory, free: set<nat>, total: nat, k: nat, roots: set<nat>, full: set<nat>, f: nat)
    requires Sys(m, free, total, k, roots, full) && f in free && 0 < f < FRAME_BITS
    ensures k in m && f !in roots
    ensures var m' := m[f := m[k]];
            && Sys(m', free - {f}, total, k, roots + {f}, full)
            && (forall s :: s in roots ==> Untouched(m, m', s))
            && Moved(m, k, m', f, Top, f)
  {
    assert RootOk(m, k, free, total);
    forall r | r in roots ensures r != f {
      assert RootOk(m, r, free, total) && Node(m, r, Top) == Some(r);
    }
    CopiedRoot(m, k, f);
    var m', free' := m[f := m[k]], free - {f};
    MovedInv(m, k, m', f, Top, f);
    forall s | s in roots ensures Untouched(m, m', s) && RootOk(m', s, free', total) {
      assert RootOk(m, s, free, total);
      FillAgrees(m, f, m[k], s, free, total);
      AgreesUntouched(m, m', s, free, free', total);
    }
    forall s, t, l: Loc, j: Loc | s in roots + {f} && t in roots + {f} && l.Depth() <= 3 && j.Depth() <= 3
      && Node(m', s, l).Some? && Node(m', s, l) == Node(m', t, j)
      ensures l == j
    {
      NewRootSpot(m, free, total, k, roots, full, f, s, t, l, j);
    }
    forall s, t, p | s in roots + {f} && t in roots + {f} && s != t && (s in full || t in full) && p in Own()
      ensures Apart(m', s, t, p)
    {
      NewRootApart(m, free, total, k, roots, full, f, s, t, p);
    }
    OwnDepth();
  }

  /** The node of either an old root or the new one, in terms of the old memory. */
  lemma NewRootNode(m: Memory, free: set<nat>, total: nat, k: nat, roots: set<nat>, full: set<nat>, f: nat, s: nat,
                    l: Loc)
    requires Sys(m, free, total, k, roots, full) && f in free && s in roots + {f} && l.Depth() <= 3
    ensures k in m && f !in roots
    ensures Node(m[f := m[k]], s, l) ==
            if s == f then (if l == Top then Some(f) else Node(m, k, l)) else Node(m, s, l)
    ensures forall r, l: Loc :: r in roots && l.Depth() <= 3 ==> Node(m, r, l) != Some(f)
  {
    forall r, l: Loc | r in roots && l.Depth() <= 3 ensures Node(m, r, l) != Some(f) {
      assert RootOk(m, r, free, total);
    }
    assert Node(m, k, Top) == Some(k) && RootOk(m, k, free, total);
    assert Node(m, f, Top) == Some(f);
    if s == f {
      CopiedRootNode(m, k, f, l);
    } else {
      assert RootOk(m, s, free, total);
      FillAgrees(m, f, m[k], s, free, total);
      AgreesNode(m, m[f := m[k]], s, l);
    }
  }

  lemma NewRootSpot(m: Memory, free: set<nat>, total: nat, k: nat, roots: set<nat>, full: set<nat>, f: nat,
                    s: nat, t: nat, l: Loc, j: Loc)
    requires Sys(m, free, total, k, roots, full) && f in free && k in m
    requires s in roots + {f} && t in roots + {f} && l.Depth() <= 3 && j.Depth() <= 3
    requires Node(m[f := m[k]], s, l).Some? && Node(m[f := m[k]], s, l) == Node(m[f := m[k]], t, j)
    ensures l == j
  {
    NewRootNode(m, free, total, k, roots, full, f, s, l);
    NewRootNode(m, free, total, k, roots, full, f, t, j);
    var s', t' := if s == f then k else s, if t == f then k else t;
    assert Node(m, s', l) != Some(f) && Node(m, t', j) != Some(f);
  }

  lemma NewRootApart(m: Memory, free: set<nat>, total: nat, k: nat, roots: set<nat>, full: set<nat>, f: nat,
                     s: nat, t: nat, p: Loc)
    requires Sys(m, free, total, k, roots, full) && f in free && k in m
    requires s in roots + {f} && t in roots + {f} && s != t && (s in full || t in full) && p in Own()
    ensures Apart(m[f := m[k]], s, t, p)
  {
    OwnDepth();
    NewRootNode(m, free, total, k, roots, full, f, s, p);
    NewRootNode(m, free, total, k, roots, full, f, t, p);
    var s', t' := if s == f then k else s, if t == f then k else t;
    assert s' != t';
    assert Apart(m, s', t', p);
    if s == f && p == Top { assert Node(m, t, Top) != Some(f); }
    if t == f && p == Top { assert Node(m, s, Top) != Some(f); }
  }

  // (3) A private copy for one table of a new root.

  /** The table at p is not shared with any other root. */
  ghost predicate Alone(m: Memory, roots: set<nat>, n: nat, p: Loc) {
    forall s :: s in roots && s != n ==> Apart(m, n, s, p)
  }

  lemma AloneIsUnreached(m: Memory, free: set<nat>, total: nat, k: nat, roots: set<nat>, full: set<nat>, n: nat,
                         p: Loc, s: nat, l: Loc)
    requires Sys(m, free, total, k, roots, full) && n in roots && s in roots && s != n
    requires Alone(m, roots, n, p) && Node(m, n, p).Some? && p.Depth() <= 3 && l.Depth() <= 3
    ensures Node(m, s, l) != Node(m, n, p)
  {
    assert Apart(m, n, s, p);
    SpotUnreached(m, roots, n, s, p, l);
  }

  /** A table of r at p that s does not have at p is nowhere under s. */
  lemma SpotUnreached(m: Memory, roots: set<nat>, r: nat, s: nat, p: Loc, l: Loc)
    requires SameSpot(m, roots) && r in roots && s in roots && p.Depth() <= 3 && l.Depth() <= 3
    requires Node(m, r, p).Some? && Apart(m, r, s, p)
    ensures Node(m, s, l) != Node(m, r, p)
  {}

  /** Redirecting a link in a table of n that no other root reaches is invisible to the other roots. */
  lemma RecopiedAgrees(m: Memory, free: set<nat>, total: nat, k: nat, roots: set<nat>, full: set<nat>,
                       n: nat, p: Loc, i: nat, f: nat, s: nat)
    requires Sys(m, free, total, k, roots, full) && n in roots && s in roots && s != n && f in free
    requires p.Depth() <= 2 && Has(m, n, p) && i < 512 && Has(m, n, Under(p, i)) && Alone(m, roots, n, p)
    ensures Agrees(m, Recopied(m, n, p, i, f), s)
  {
    assert RootOk(m, s, free, total);
    forall l: Loc | l.Depth() <= 3 && Has(m, s, l)
      ensures Node(m, s, l) != Some(f) && Node(m, s, l) != Node(m, n, p)
    {
      AloneIsUnreached(m, free, total, k, roots, full, n, p, s, l);
    }
  }

  lemma NotYetReached(m: Memory, free: set<nat>, total: nat, k: nat, roots: set<nat>, full: set<nat>, f: nat)
    requires Sys(m, free, total, k, roots, full) && f in free
    ensures forall r, l: Loc :: r in roots && l.Depth() <= 3 ==> Node(m, r, l) != Some(f)
  {
    forall r, l: Loc | r in roots && l.Depth() <= 3 ensures Node(m, r, l) != Some(f) {
      assert RootOk(m, r, free, total);
    }
  }

  /** Replacing a table of n by a private copy keeps the system, all trees of the others, and n's own translations. */
  lemma SysRecopied(m: Memory, free: set<nat>, total: nat, k: nat, roots: set<nat>, full: set<nat>,
                    n: nat, p: Loc, i: nat, f: nat)
    requires Sys(m, free, total, k, roots, full) && n in roots - full - {k} && f in free && 0 < f < FRAME_BITS
    requires p.Depth() <= 2 && Has(m, n, p) && i < 512 && Has(m, n, Under(p, i)) && Alone(m, roots, n, p)
    ensures var m' := Recopied(m, n, p, i, f);
            && Sys(m', free - {f}, total, k, roots, full)
            && (forall s :: s in roots && s != n ==> Untouched(m, m', s))
            && Moved(m, n, m', n, Under(p, i), f)
            && Alone(m', roots, n, Under(p, i))
            && (forall l: Loc :: l.Depth() <= 3 && Alone(m, roots, n, l) ==> Alone(m', roots, n, l))
  {
    hide Inv, InUse, Managed, Own, SameSpot, Private, Alone, Walk, Recopied, Apart;
    var m', free' := Recopied(m, n, p, i, f), free - {f};
    assert RootOk(m, n, free, total);
    NotYetReached(m, free, total, k, roots, full, f);
    RecopiedMoved(m, n, p, i, f);
    RecopiedKept(m, free, total, k, roots, full, n, p, i, f);
    forall s | s in roots && s != n ensures Untouched(m, m', s) && RootOk(m', s, free', total) {
      RecopiedOther(m, free, total, k, roots, full, n, p, i, f, s);
    }
    MovedSystem(m, m', free, total, k, roots, full, n, Under(p, i), f);
  }

  lemma RecopiedOther(m: Memory, free: set<nat>, total: nat, k: nat, roots: set<nat>, full: set<nat>,
                      n: nat, p: Loc, i: nat, f: nat, s: nat)
    requires Sys(m, free, total, k, roots, full) && n in roots && s in roots && s != n && f in free
    requires p.Depth() <= 2 && Has(m, n, p) && i < 512 && Has(m, n, Under(p, i)) && Alone(m, roots, n, p)
    ensures Untouched(m, Recopied(m, n, p, i, f), s) && RootOk(Recopied(m, n, p, i, f), s, free - {f}, total)
  {
    assert RootOk(m, s, free, total);
    RecopiedAgrees(m, free, total, k, roots, full, n, p, i, f, s);
    AgreesUntouched(m, Recopied(m, n, p, i, f), s, free, free - {f}, total);
  }

  lemma RecopiedKept(m: Memory, free: set<nat>, total: nat, k: nat, roots: set<nat>, full: set<nat>,
                     n: nat, p: Loc, i: nat, f: nat)
    requires Sys(m, free, total, k, roots, full) && n in roots && f in free && 0 < f < FRAME_BITS
    requires p.Depth() <= 2 && Has(m, n, p) && i < 512 && Has(m, n, Under(p, i))
    ensures Inv(Recopied(m, n, p, i, f), n)
  {
    hide Own, SameSpot, Walk, SameOrRelinked;
    assert RootOk(m, n, free, total);
    NotYetReached(m, free, total, k, roots, full, f);
    RecopiedMoved(m, n, p, i, f);
    MovedInv(m, n, Recopied(m, n, p, i, f), n, Under(p, i), f);
  }

  /** n's table at p now lives in frame f, which no root reached; no other table moved. */
  ghost predicate OneMoved(m: Memory, m': Memory, roots: set<nat>, n: nat, p: Loc, f: nat) {
    && (forall r, l: Loc :: r in roots && l.Depth() <= 3 ==> Node(m, r, l) != Some(f))
    && (forall r, l: Loc :: r in roots && r != n && l.Depth() <= 3 ==> Node(m', r, l) == Node(m, r, l))
    && (forall l: Loc :: l.Depth() <= 3 ==> Node(m', n, l) == if l == p then Some(f) else Node(m, n, l))
  }

  lemma OneMovedSpot(m: Memory, m': Memory, roots: set<nat>, n: nat, p: Loc, f: nat)
    requires SameSpot(m, roots) && OneMoved(m, m', roots, n, p, f) && n in roots
    ensures SameSpot(m', roots)
  {
    forall r, s, l: Loc, j: Loc | r in roots && s in roots && l.Depth() <= 3 && j.Depth() <= 3
      && Node(m', r, l).Some? && Node(m', r, l) == Node(m', s, j)
      ensures l == j
    {
      assert Node(m, r, l) != Some(f) && Node(m, s, j) != Some(f);
    }
  }

  lemma OneMovedApart(m: Memory, m': Memory, roots: set<nat>, n: nat, p: Loc, f: nat, r: nat, s: nat, l: Loc)
    requires OneMoved(m, m', roots, n, p, f) && n in roots && r in roots && s in roots && r != s && l.Depth() <= 3
    requires Apart(m, r, s, l) || (r == n && l == p)
    ensures Apart(m', r, s, l)
  {
    assert Node(m, r, l) != Some(f) && Node(m, s, l) != Some(f);
  }

  /** Moving a table of n to a frame no root reaches keeps the sharing invariants. */
  lemma MovedSystem(m: Memory, m': Memory, free: set<nat>, total: nat, k: nat, roots: set<nat>, full: set<nat>,
                    n: nat, p: Loc, f: nat)
    requires Sys(m, free, total, k, roots, full) && n in roots - full && f in free && p.Depth() <= 3
    requires OneMoved(m, m', roots, n, p, f)
    ensures SameSpot(m', roots) && Private(m', roots, full)
    ensures forall r, o :: r in full && o in Own() ==> Node(m', r, o).Some?
    ensures Managed(m', n, total) && InUse(m', n, free - {f})
    ensures Alone(m', roots, n, p)
    ensures forall l: Loc :: l.Depth() <= 3 && Alone(m, roots, n, l) ==> Alone(m', roots, n, l)
  {
    hide Inv, Apart, SameSpot, Own;
    assert RootOk(m, n, free, total);
    OwnDepth();
    OneMovedSpot(m, m', roots, n, p, f);
    forall r, s, o | r in roots && s in roots && r != s && (r in full || s in full) && o in Own()
      ensures Apart(m', r, s, o)
    {
      assert Apart(m, r, s, o);
      OneMovedApart(m, m', roots, n, p, f, r, s, o);
    }
    forall s | s in roots && s != n ensures Apart(m', n, s, p) {
      OneMovedApart(m, m', roots, n, p, f, n, s, p);
    }
    forall s, l: Loc | s in roots && s != n && l.Depth() <= 3 && Apart(m, n, s, l) ensures Apart(m', n, s, l) {
      OneMovedApart(m, m', roots, n, p, f, n, s, l);
    }
  }

  /** A root whose four own tables are unshared is fully copied. */
  lemma SysPromote(m: Memory, free: set<nat>, total: nat, k: nat, roots: set<nat>, full: set<nat>, n: nat)
    requires Sys(m, free, total, k, roots, full) && n in roots - {k}
    requires forall p :: p in Own() ==> Node(m, n, p).Some? && Alone(m, roots, n, p)
    ensures Sys(m, free, total, k, roots, full + {n})
  {
    forall r, s, p | r in roots && s in roots && r != s && (r in full + {n} || s in full + {n}) && p in Own()
      ensures Apart(m, r, s, p)
    {
      if r == n { assert Apart(m, n, s, p); } else if s == n { assert Apart(m, n, r, p); }
    }
  }

  // (4) Giving a root back.

  /** The frames of the tables a root has at the given places. */
  ghost function FramesAt(m: Memory, r: nat, ls: set<Loc>): set<nat> {
    set p | p in ls && Node(m, r, p).Some? :: Node(m, r, p).value
  }

  /** The frames of a root's own tables. */
  ghost function OwnFrames(m: Memory, r: nat): set<nat> {
    FramesAt(m, r, Own())
  }

  /** Giving back the own tables of r takes no table away from root s exactly when the two roots share none of them. */
  lemma FreeIsSafe(m: Memory, roots: set<nat>, r: nat, s: nat)
    requires SameSpot(m, roots) && r in roots && s in roots
    ensures (forall l: Loc :: l.Depth() <= 3 && Node(m, s, l).Some? ==> Node(m, s, l).value !in OwnFrames(m, r))
            <==> (forall p :: p in Own() ==> Apart(m, r, s, p))
  {
    hide Own, SameSpot;
    OwnDepth();
    if forall p :: p in Own() ==> Apart(m, r, s, p) {
      forall l: Loc, p | l.Depth() <= 3 && Node(m, s, l).Some? && p in Own() && Node(m, r, p).Some?
        ensures Node(m, r, p).value != Node(m, s, l).value
      {
        assert Apart(m, r, s, p);
        SpotUnreached(m, roots, r, s, p, l);
      }
    } else {
      var p :| p in Own() && !Apart(m, r, s, p);
      OwnFrameShared(m, r, s, p);
    }
  }

  lemma OwnFrameShared(m: Memory, r: nat, s: nat, p: Loc)
    requires p in Own() && !Apart(m, r, s, p)
    ensures !(forall l: Loc :: l.Depth() <= 3 && Node(m, s, l).Some? ==> Node(m, s, l).value !in OwnFrames(m, r))
  {
    assert p.Depth() <= 3 && Node(m, s, p).Some? && Node(m, s, p).value in OwnFrames(m, r);
  }

  /** Freeing a fully copied root keeps everything the other roots see, and none of their tables is given back. */
  lemma FreeUntouched(m: Memory, m': Memory, free: set<nat>, total: nat, k: nat, roots: set<nat>, full: set<nat>,
                      r: nat, s: nat)
    requires Sys(m, free, total, k, roots, full) && r in full && s in roots && s != r
    requires forall f :: f in m && f !in OwnFrames(m, r) ==> f in m' && m'[f] == m[f]
    ensures Untouched(m, m', s) && RootOk(m', s, free + OwnFrames(m, r), total)
  {
    hide Own, OwnFrames, Walk, SameSpot;
    assert RootOk(m, s, free, total);
    assert forall p :: p in Own() ==> Apart(m, r, s, p);
    FreeIsSafe(m, roots, r, s);
    AgreesUntouched(m, m', s, free, free, total);
    forall l: Loc | l.Depth() <= 3 && Node(m', s, l).Some?
      ensures Node(m', s, l).value !in free + OwnFrames(m, r)
    {
      assert Node(m', s, l) == Node(m, s, l);
    }
  }

  /** Freeing a fully copied root keeps the rest of the system. */
  lemma SysFree(m: Memory, m': Memory, free: set<nat>, total: nat, k: nat, roots: set<nat>, full: set<nat>, r: nat)
    requires Sys(m, free, total, k, roots, full) && r in full
    requires forall f :: f in m && f !in OwnFrames(m, r) ==> f in m' && m'[f] == m[f]
    ensures Sys(m', free + OwnFrames(m, r), total, k, roots - {r}, full - {r})
    ensures forall s :: s in roots && s != r ==> Untouched(m, m', s)
    ensures StillApart(m, m', roots - {r})
  {
    hide Own, Inv, InUse, Managed, Walk;
    OwnDepth();
    forall s | s in roots && s != r
      ensures Untouched(m, m', s) && RootOk(m', s, free + OwnFrames(m, r), total)
    {
      FreeUntouched(m, m', free, total, k, roots, full, r, s);
    }
    OwnFramesManaged(m, free, total, k, roots, full, r);
    forall s, t, l: Loc | s in roots - {r} && t in roots - {r} && s != t && l.Depth() <= 3 && Apart(m, s, t, l)
      ensures Apart(m', s, t, l)
    {
      assert Untouched(m, m', s) && Untouched(m, m', t);
    }
    UntouchedSpot(m, m', roots - {r});
    assert full - {r} <= roots - {r} - {k};
    forall s, p | s in full - {r} && p in Own() ensures Node(m', s, p).Some? {
      assert Untouched(m, m', s);
    }
  }

  lemma UntouchedSpot(m: Memory, m': Memory, roots: set<nat>)
    requires SameSpot(m, roots) && forall s :: s in roots ==> Untouched(m, m', s)
    ensures SameSpot(m', roots)
  {
    forall r, s, l: Loc, j: Loc | r in roots && s in roots && l.Depth() <= 3 && j.Depth() <= 3
      && Node(m', r, l).Some? && Node(m', r, l) == Node(m', s, j)
      ensures l == j
    {
      assert Untouched(m, m', r) && Untouched(m, m', s);
      assert Node(m', r, l) == Node(m, r, l) && Node(m', s, j) == Node(m, s, j);
    }
  }

  lemma OwnFramesManaged(m: Memory, free: set<nat>, total: nat, k: nat, roots: set<nat>, full: set<nat>, r: nat)
    requires Sys(m, free, total, k, roots, full) && r in roots
    ensures forall f :: f in OwnFrames(m, r) ==> 0 < f < total && f !in free && f in m
  {
    OwnDepth();
    assert RootOk(m, r, free, total);
  }

  // (5) Building a process root table by table.

  /** Root n has its own tables, taken from the free frames, at the places `done`, and the kernel's elsewhere. */
  ghost predicate OwnAt(m0: Memory, m: Memory, free0: set<nat>, free: set<nat>, k: nat, roots: set<nat>, n: nat,
                        done: set<Loc>) {
    && done <= Own() && |free| == |free0| - |done|
    && (forall l: Loc :: l.Depth() <= 3 && l !in done ==> Node(m, n, l) == Node(m0, k, l))
    && (forall l :: l in done ==>
       Node(m, n, l).Some? && Node(m, n, l).value in free0 - free && Alone(m, roots + {n}, n, l))
    && free0 == free + FramesAt(m, n, done)
  }

  /** Root n is a copy of the kernel tree of m0 in which the tables at `done` are n's own. */
  ghost predicate Copying(m0: Memory, m: Memory, free0: set<nat>, free: set<nat>, total: nat, k: nat,
                          roots: set<nat>, full: set<nat>, n: nat, done: set<Loc>) {
    && Sys(m, free, total, k, roots + {n}, full) && n in free0 && n !in roots && free <= free0
    && (forall s :: s in roots ==> Untouched(m0, m, s))
    && (forall q: Page :: q.Valid() ==> View(m, n, q) == View(m0, k, q))
    && OwnAt(m0, m, free0, free, k, roots, n, done)
  }

  lemma OwnAtStart(m: Memory, m': Memory, free: set<nat>, k: nat, roots: set<nat>, f: nat)
    requires f in free && f !in roots
    requires forall l: Loc :: l.Depth() <= 3 ==> Node(m', f, l) == if l == Top then Some(f) else Node(m, k, l)
    ensures OwnAt(m, m', free, free - {f}, k, roots, f, {Top})
  {
    hide Own, FramesAt, Apart, Alone;
    TopAlone(m', roots, f);
    assert |{Top}| == 1 && |free - {f}| == |free| - 1;
    assert free == free - {f} + {f};
  }

  lemma TopAlone(m: Memory, roots: set<nat>, f: nat)
    requires f !in roots
    ensures Alone(m, roots + {f}, f, Top) && FramesAt(m, f, {Top}) == {f} && {Top} <= Own()
  {
    assert Node(m, f, Top) == Some(f);
    forall s | s in roots + {f} && s != f ensures Apart(m, f, s, Top) { assert Node(m, s, Top) == Some(s); }
  }

  lemma CopyStart(m: Memory, free: set<nat>, total: nat, k: nat, roots: set<nat>, full: set<nat>, f: nat)
    requires Sys(m, free, total, k, roots, full) && f in free && 0 < f < FRAME_BITS
    ensures k in m && Copying(m, m[f := m[k]], free, free - {f}, total, k, roots, full, f, {Top})
    ensures Node(m[f := m[k]], f, Top) == Some(f)
  {
    hide Inv, InUse, Managed, SameSpot, Private, Walk, View, OwnAt, Sys, SameOrRelinked;
    SysNewRoot(m, free, total, k, roots, full, f);
    var m' := m[f := m[k]];
    OwnAtStart(m, m', free, k, roots, f);
    forall q: Page | q.Valid() ensures View(m', f, q) == View(m, k, q) {
      MovedView(m, k, m', f, Top, f, q);
    }
  }

  lemma FramesAtMoved(m: Memory, m': Memory, n: nat, done: set<Loc>, x: Loc, f: nat)
    requires done <= Own() && x in Own() && x !in done
    requires forall l: Loc :: l.Depth() <= 3 ==> Node(m', n, l) == if l == x then Some(f) else Node(m, n, l)
    ensures FramesAt(m', n, done + {x}) == FramesAt(m, n, done) + {f}
  {
    OwnDepth();
    forall g ensures g in FramesAt(m', n, done + {x}) <==> g in FramesAt(m, n, done) + {f} {
      if g == f { assert Node(m', n, x) == Some(f) && x in done + {x}; }
      if g in FramesAt(m, n, done) {
        var l :| l in done && Node(m, n, l).Some? && Node(m, n, l).value == g;
        assert Node(m', n, l) == Node(m, n, l) && l in done + {x};
      }
    }
  }

  lemma UntouchedTrans(m: Memory, m1: Memory, m2: Memory, s: nat)
    requires Untouched(m, m1, s) && Untouched(m1, m2, s)
    ensures Untouched(m, m2, s)
  {}

  lemma CopyStep(m0: Memory, m: Memory, free0: set<nat>, free: set<nat>, total: nat, k: nat,
                 roots: set<nat>, full: set<nat>, n: nat, done: set<Loc>, p: Loc, i: nat, f: nat)
    requires Copying(m0, m, free0, free, total, k, roots, full, n, done) && k in roots && n !in full
    requires p in done && p.Depth() <= 1 && i < 512 && Under(p, i) in Own() && Under(p, i) !in done
    requires Has(m, n, p) && Has(m, n, Under(p, i)) && f in free && 0 < f < FRAME_BITS
    ensures Copying(m0, Recopied(m, n, p, i, f), free0, free - {f}, total, k, roots, full, n, done + {Under(p, i)})
    ensures forall l: Loc :: l.Depth() <= 3 ==>
              Node(Recopied(m, n, p, i, f), n, l) == if l == Under(p, i) then Some(f) else Node(m, n, l)
  {
    hide Inv, InUse, Managed, SameSpot, Private, Walk, Recopied, Apart, SameOrRelinked, View, Sys, Alone, OwnAt, Own;
    var m', x := Recopied(m, n, p, i, f), Under(p, i);
    SysRecopied(m, free, total, k, roots + {n}, full, n, p, i, f) by {
      CopyingAlone(m0, m, free0, free, total, k, roots, full, n, done, p);
    }
    OwnAtStep(m0, m, m', free0, free, k, roots, n, done, x, f);
    forall q: Page | q.Valid() ensures View(m', n, q) == View(m0, k, q) {
      MovedView(m, n, m', n, x, f, q);
    }
    forall s | s in roots ensures Untouched(m0, m', s) {
      UntouchedTrans(m0, m, m', s);
    }
  }

  lemma CopyingAlone(m0: Memory, m: Memory, free0: set<nat>, free: set<nat>, total: nat, k: nat,
                     roots: set<nat>, full: set<nat>, n: nat, done: set<Loc>, p: Loc)
    requires Copying(m0, m, free0, free, total, k, roots, full, n, done) && p in done
    ensures Alone(m, roots + {n}, n, p)
  {}

  lemma OwnAtStep(m0: Memory, m: Memory, m': Memory, free0: set<nat>, free: set<nat>, k: nat, roots: set<nat>,
                  n: nat, done: set<Loc>, x: Loc, f: nat)
    requires OwnAt(m0, m, free0, free, k, roots, n, done) && x in Own() && x !in done && f in free && free <= free0
    requires forall l: Loc :: l.Depth() <= 3 ==> Node(m', n, l) == if l == x then Some(f) else Node(m, n, l)
    requires Alone(m', roots + {n}, n, x)
    requires forall l: Loc :: l.Depth() <= 3 && Alone(m, roots + {n}, n, l) ==> Alone(m', roots + {n}, n, l)
    ensures OwnAt(m0, m', free0, free - {f}, k, roots, n, done + {x})
  {
    hide Alone, FramesAt, Own;
    OwnDepth();
    FramesAtMoved(m, m', n, done, x, f);
    assert |done + {x}| == |done| + 1;
    assert |free - {f}| == |free| - 1;
    assert free0 == (free - {f}) + (FramesAt(m, n, done) + {f});
    forall l | l in done + {x}
      ensures Node(m', n, l).Some? && Node(m', n, l).value in free0 - (free - {f}) && Alone(m', roots + {n}, n, l)
    {
      assert l.Depth() <= 3;
    }
  }

  /** A finished copy with all four own tables is a fully copied root. */
  lemma CopyDone(m0: Memory, m: Memory, free0: set<nat>, free: set<nat>, total: nat, k: nat,
                 roots: set<nat>, full: set<nat>, n: nat, done: set<Loc>)
    requires Copying(m0, m, free0, free, total, k, roots, full, n, done) && k in roots
    ensures done == Own() ==> Sys(m, free, total, k, roots + {n}, full + {n}) && free == free0 - OwnFrames(m, n)
                              && |OwnFrames(m, n)| == 4 && OwnFrames(m, n) <= free0
    ensures Inv(m, n) && forall q: Page :: q.Valid() ==> Walk(m, n, q) == View(m0, k, q)
    ensures |done| <= 4 && (|done| == 4 <==> done == Own())
  {
    hide InUse, Managed, SameSpot, Private, Walk, Apart, View, Own, FramesAt, Alone;
    assert RootOk(m, n, free, total);
    forall q: Page | q.Valid() ensures Walk(m, n, q) == View(m0, k, q) { WalkIsView(m, n, q); }
    OwnCount(done);
    if done == Own() {
      SysPromote(m, free, total, k, roots + {n}, full, n);
      FramesAtTaken(m, n, free0, free, Own());
      assert |free0| == |free| + |OwnFrames(m, n)|;
    }
  }

  lemma FramesAtTaken(m: Memory, n: nat, free0: set<nat>, free: set<nat>, done: set<Loc>)
    requires forall l :: l in done ==> Node(m, n, l).Some? && Node(m, n, l).value in free0 - free
    ensures FramesAt(m, n, done) <= free0 - free
  {}

  lemma OwnCount(done: set<Loc>)
    requires done <= Own()
    ensures |Own()| == 4 && |done| <= 4 && (|done| == 4 <==> done == Own())
  {
    assert L0 != Top && L00 != L01 && L00 != L0 && L01 != L0;
    assert Own() == {Top} + {L0} + {L00} + {L01};
    assert Own() == done + (Own() - done);
  }

  // (6) What teardown writes.

  /** The entry after teardown: a present link is zeroed. */
  function Zap(e: Entry): Entry { if e.present then ZERO_ENTRY else e }

  /** Memory after the teardown of root r: the first two links of its first page-directory-pointer table are gone. */
  function TornDown(m: Memory, r: nat): Memory {
    if r in m && m[r][0].present && m[r][0].frame in m then
      var pdp := m[r][0].frame;
      m[pdp := m[pdp][0 := Zap(m[pdp][0])][1 := Zap(m[pdp][1])]]
    else m
  }

  /** The frames the teardown of root r gives back. */
  function Reached(m: Memory, r: nat): set<nat>
    requires r in m
  {
    {r} +
    if !m[r][0].present || m[r][0].frame !in m then {}
    else
      var t := m[r][0].frame;
      {t} + (if m[t][0].present then {m[t][0].frame} else {}) + (if m[t][1].present then {m[t][1].frame} else {})
  }

  /** The tables teardown reads are in memory. */
  predicate Removable(m: Memory, r: nat) { r in m && (m[r][0].present ==> m[r][0].frame in m && m[r][0].frame != r) }

  /** A second teardown of the same root, before any frame is taken again, writes nothing and gives nothing more
      back. */
  lemma TornDownTwice(m: Memory, r: nat)
    requires Removable(m, r)
    ensures var m' := TornDown(m, r); Removable(m', r) && TornDown(m', r) == m' && Reached(m', r) <= Reached(m, r)
  {
    if m[r][0].present {
      var t := m[r][0].frame;
      var m' := TornDown(m, r);
      assert m'[r] == m[r] && m'[t] == m[t][0 := Zap(m[t][0])][1 := Zap(m[t][1])];
      assert m'[t][0 := Zap(m'[t][0])][1 := Zap(m'[t][1])] == m'[t];
    }
  }

  /** Teardown writes only to one of the root's own tables. */
  lemma TornDownOwn(m: Memory, free: set<nat>, total: nat, k: nat, roots: set<nat>, full: set<nat>, r: nat)
    requires Sys(m, free, total, k, roots, full) && r in roots
    ensures forall f :: f in m && f !in OwnFrames(m, r) ==> f in TornDown(m, r) && TornDown(m, r)[f] == m[f]
  {
    assert RootOk(m, r, free, total) && Node(m, r, Top) == Some(r);
    assert Has(m, r, Top);
    assert EntryOk(0, TableAt(m, r, Top)[0]);
    if m[r][0].present {
      assert Node(m, r, L0) == Some(m[r][0].frame) && L0 in Own();
      assert m[r][0].frame in OwnFrames(m, r);
    }
  }

  /** The own frames of a root, as teardown finds them. */
  lemma OwnFramesFound(m: Memory, free: set<nat>, total: nat, k: nat, roots: set<nat>, full: set<nat>, r: nat)
    requires Sys(m, free, total, k, roots, full) && r in roots
    ensures Removable(m, r) && OwnFrames(m, r) == Reached(m, r)
  {
    hide SameSpot, Private;
    assert RootOk(m, r, free, total) && Node(m, r, Top) == Some(r);
    assert Has(m, r, Top);
    assert EntryOk(0, TableAt(m, r, Top)[0]);
    assert L0 == Under(Top, 0) && L00 == Under(L0, 0) && L01 == Under(L0, 1);
    if m[r][0].present {
      var t := m[r][0].frame;
      assert Node(m, r, L0) == Some(t);
      assert Has(m, r, L0);
      assert EntryOk(1, TableAt(m, r, L0)[0]) && EntryOk(1, TableAt(m, r, L0)[1]);
      assert Node(m, r, L00) == if m[t][0].present then Some(m[t][0].frame) else None;
      assert Node(m, r, L01) == if m[t][1].present then Some(m[t][1].frame) else None;
      FramesOfFour(m, r);
    } else {
      assert Node(m, r, L0) == None && Node(m, r, L00) == None && Node(m, r, L01) == None;
      FramesOfFour(m, r);
    }
  }

  function FrameOf(o: Option<nat>): set<nat> { if o.Some? then {o.value} else {} }

  lemma FramesOfFour(m: Memory, r: nat)
    ensures OwnFrames(m, r) == FrameOf(Node(m, r, Top)) + FrameOf(Node(m, r, L0)) + FrameOf(Node(m, r, L00)) +
            FrameOf(Node(m, r, L01))
  {
    assert Own() == {Top, L0, L00, L01};
    forall p | p in Own() && Node(m, r, p).Some? ensures Node(m, r, p).value in FrameOf(Node(m, r, p)) {}
  }

  /** When the copy of the page-directory-pointer table failed, teardown hits the kernel's own: afterwards the
      kernel root translates nothing in the first two gigabytes. */
  lemma PartialTeardownBreaksKernel(m: Memory, free: set<nat>, total: nat, k: nat, roots: set<nat>, full: set<nat>,
                                    r: nat, q: Page)
    requires Sys(m, free, total, k, roots, full) && r in roots && r != k
    requires Node(m, r, L0).Some? && Node(m, r, L0) == Node(m, k, L0)
    requires q.Valid() && q.a == 0 && q.b < 2
    ensures Walk(TornDown(m, r), k, q) == Fault
  {
    assert RootOk(m, r, free, total) && RootOk(m, k, free, total);
    assert Node(m, r, Top) == Some(r) && Node(m, k, Top) == Some(k);
    assert Has(m, r, Top) && Has(m, k, Top) && Has(m, k, L0);
    var t := Node(m, k, L0).value;
    assert L0.Depth() == 1;
    assert t != k;
    assert TornDown(m, r)[t][q.b] == Zap(m[t][q.b]);
    assert TornDown(m, r)[k] == m[k];
  }
}

/** What growing one root's tree does to the roots it shares tables with. */
module SharedTrees {
  import opened Prelude
  import opened PageTables
  import opened PageTree
  import opened PageSteps
  import opened ProcessTrees

  /** Roots r and s share the table at l, or one above it. */
  predicate Joint(m: Memory, r: nat, s: nat, l: Loc) {
    || (Node(m, r, l).Some? && Node(m, r, l) == Node(m, s, l))
    || (l.Under? && Joint(m, r, s, l.up))
  }

  /** Roots r and s share a table on the walk to page q. */
  predicate Shares(m: Memory, r: nat, s: nat, q: Page) { Joint(m, r, s, PtLoc(q)) }

  /** Below a shared table everything is shared. */
  lemma {:induction false} JointNode(m: Memory, r: nat, s: nat, l: Loc)
    requires Joint(m, r, s, l)
    ensures Node(m, r, l) == Node(m, s, l)
  {
    if l.Under? && Joint(m, r, s, l.up) { JointNode(m, r, s, l.up); }
  }

  /** The frames of all tables of a root. */
  ghost predicate TablesOf(m: Memory, r: nat, fs: set<nat>) {
    forall f :: f in fs ==> exists l: Loc :: l.Depth() <= 3 && Node(m, r, l) == Some(f)
  }

  /** The tree of r grew from m to m', writing to its own tables and to free frames only. */
  ghost predicate Growth(m: Memory, m': Memory, free: set<nat>, free': set<nat>, total: nat, k: nat, roots: set<nat>,
                         full: set<nat>, r: nat, touched: set<nat>) {
    && Sys(m, free, total, k, roots, full) && r in roots && Grown(m, m', r, free, free', touched)
       && TablesOf(m, r, touched)
    && Inv(m', r) && InUse(m', r, free')
  }

  /** A table of s that r does not have is as it was. */
  lemma ForeignTable(m: Memory, m': Memory, free: set<nat>, free': set<nat>, total: nat, k: nat, roots: set<nat>,
                     full: set<nat>, r: nat, touched: set<nat>, s: nat, p: Loc)
    requires Growth(m, m', free, free', total, k, roots, full, r, touched) && s in roots && p.Depth() <= 3
    requires Node(m, s, p).Some? && Node(m, s, p) != Node(m, r, p)
    ensures var t := Node(m, s, p).value; t in m && t in m' && m'[t] == m[t] && t !in free
  {
    hide Inv, Private, SameSpot;
    assert RootOk(m, s, free, total);
    var t := Node(m, s, p).value;
    assert t in m by { RootResident(m, s, p); }
    if t in touched {
      var l: Loc :| l.Depth() <= 3 && Node(m, r, l) == Some(t);
      SpotUnreached(m, roots, s, r, p, l);
    }
  }

  lemma RootResident(m: Memory, s: nat, l: Loc)
    requires Inv(m, s) && l.Depth() <= 3 && Node(m, s, l).Some?
    ensures Node(m, s, l).value in m && 0 < Node(m, s, l).value < FRAME_BITS
  {}

  /** The tables of s after the growth: those of r where s shares them, its old ones elsewhere. */
  lemma {:induction false} SharedNode(m: Memory, m': Memory, free: set<nat>, free': set<nat>, total: nat, k: nat,
                                      roots: set<nat>, full: set<nat>, r: nat, touched: set<nat>, s: nat, l: Loc)
    requires Growth(m, m', free, free', total, k, roots, full, r, touched) && s in roots && l.Depth() <= 3
    ensures Node(m', s, l) == if Joint(m, r, s, l) then Node(m', r, l) else Node(m, s, l)
  {
    hide Sys, Inv, InUse, TablesOf;
    match l
    case Top =>
    case Under(p, i) =>
      SharedNode(m, m', free, free', total, k, roots, full, r, touched, s, p);
      if !Joint(m, r, s, p) && Node(m, s, p).Some? {
        ForeignTable(m, m', free, free', total, k, roots, full, r, touched, s, p);
        KeptNode(m, m', r, free, free', touched, l);
      }
  }

  lemma KeptNode(m: Memory, m': Memory, r: nat, free: set<nat>, free': set<nat>, touched: set<nat>, l: Loc)
    requires Grown(m, m', r, free, free', touched) && l.Depth() <= 3
    ensures Node(m', r, l) == Node(m, r, l)
            || (Node(m, r, l).None? && Node(m', r, l).Some? && Node(m', r, l).value in free - free')
    ensures free' <= free
  {}

  /** The general sharing theorem. Growing r's tree changes what page q means under s exactly as it does under r if the
      two share a table on the walk to q, and not at all otherwise. */
  lemma SharedView(m: Memory, m': Memory, free: set<nat>, free': set<nat>, total: nat, k: nat, roots: set<nat>,
                   full: set<nat>, r: nat, touched: set<nat>, s: nat, q: Page)
    requires Growth(m, m', free, free', total, k, roots, full, r, touched) && s in roots && q.Valid()
    ensures View(m', s, q) == if Shares(m, r, s, q) then View(m', r, q) else View(m, s, q)
    ensures Shares(m, r, s, q) ==> View(m, s, q) == View(m, r, q)
  {
    hide Sys, Inv, InUse, TablesOf, Grown, Growth;
    SharedNode(m, m', free, free', total, k, roots, full, r, touched, s, PdLoc(q));
    SharedNode(m, m', free, free', total, k, roots, full, r, touched, s, PtLoc(q));
    PathResident(m, m', free, free', total, k, roots, full, r, touched, s, PdLoc(q));
    PathResident(m, m', free, free', total, k, roots, full, r, touched, s, PtLoc(q));
    if Shares(m, r, s, q) {
      JointNode(m, r, s, PtLoc(q));
      if Joint(m, r, s, PdLoc(q)) {
        JointNode(m, r, s, PdLoc(q));
      } else {
        OwnDirectory(m, m', free, free', total, k, roots, full, r, touched, s, q);
      }
    }
  }

  /** Where nothing is shared, the table is in memory and as it was. */
  lemma PathResident(m: Memory, m': Memory, free: set<nat>, free': set<nat>, total: nat, k: nat, roots: set<nat>,
                     full: set<nat>, r: nat, touched: set<nat>, s: nat, l: Loc)
    requires Growth(m, m', free, free', total, k, roots, full, r, touched) && s in roots && l.Depth() <= 3
    ensures Node(m, s, l).Some? ==> Has(m, s, l)
    ensures Node(m, r, l).Some? ==> Has(m, r, l)
    ensures Node(m', r, l).Some? ==> Has(m', r, l)
    ensures !Joint(m, r, s, l) && Node(m, s, l).Some? ==>
              Node(m, s, l).value in m' && m'[Node(m, s, l).value] == m[Node(m, s, l).value]
  {
    hide Private, SameSpot, Joint, Inv;
    assert RootOk(m, s, free, total) && RootOk(m, r, free, total);
    if Node(m, s, l).Some? { RootResident(m, s, l); }
    if Node(m, r, l).Some? { RootResident(m, r, l); }
    if Node(m', r, l).Some? { RootResident(m', r, l); }
    if Node(m, s, l).Some? && !Joint(m, r, s, l) {
      NotJointHere(m, r, s, l);
      ForeignTable(m, m', free, free', total, k, roots, full, r, touched, s, l);
    }
  }

  lemma NotJointHere(m: Memory, r: nat, s: nat, l: Loc)
    requires !Joint(m, r, s, l) && Node(m, s, l).Some?
    ensures Node(m, r, l) != Node(m, s, l)
  {}

  /** A page table shared below directories that are not: both directories link to it, before and after. */
  lemma OwnDirectory(m: Memory, m': Memory, free: set<nat>, free': set<nat>, total: nat, k: nat, roots: set<nat>,
                     full: set<nat>, r: nat, touched: set<nat>, s: nat, q: Page)
    requires Growth(m, m', free, free', total, k, roots, full, r, touched) && s in roots && q.Valid()
    requires Joint(m, r, s, PtLoc(q)) && !Joint(m, r, s, PdLoc(q))
    ensures Node(m, r, PtLoc(q)).Some? && Node(m, r, PtLoc(q)) == Node(m, s, PtLoc(q))
            && Node(m', r, PtLoc(q)) == Node(m, r, PtLoc(q))
    ensures Node(m', s, PtLoc(q)) == Node(m, r, PtLoc(q))
  {
    hide Sys, Inv, InUse, TablesOf;
    assert Node(m, r, PtLoc(q)).Some? && Node(m, r, PtLoc(q)) == Node(m, s, PtLoc(q));
    KeptNode(m, m', r, free, free', touched, PtLoc(q));
    SharedNode(m, m', free, free', total, k, roots, full, r, touched, s, PtLoc(q));
  }

  // ---------- sharing itself does not change ----------

  lemma {:induction false} JointTrans(m: Memory, r: nat, s: nat, t: nat, l: Loc)
    requires Joint(m, r, s, l) && Joint(m, r, t, l)
    ensures Joint(m, s, t, l)
  {
    JointNode(m, r, s, l);
    JointNode(m, r, t, l);
    if l.Under? && Joint(m, r, s, l.up) && Joint(m, r, t, l.up) { JointTrans(m, r, s, t, l.up); }
  }

  /** Two places with the same table, in terms of the memory before. */
  lemma SameTable(m: Memory, m': Memory, free: set<nat>, free': set<nat>, total: nat, k: nat, roots: set<nat>,
                  full: set<nat>, r: nat, touched: set<nat>, s: nat, l: Loc, t: nat, j: Loc)
    requires Growth(m, m', free, free', total, k, roots, full, r, touched) && s in roots && t in roots
             && l.Depth() <= 3 && j.Depth() <= 3
    requires Node(m', s, l).Some? && Node(m', s, l) == Node(m', t, j)
    ensures l == j
            && ((Joint(m, r, s, l) && Joint(m, r, t, l)) || (Node(m, s, l).Some? && Node(m, s, l) == Node(m, t, l)))
  {
    hide Inv, TablesOf, Private, Joint;
    SharedNode(m, m', free, free', total, k, roots, full, r, touched, s, l);
    SharedNode(m, m', free, free', total, k, roots, full, r, touched, t, j);
    KeptNode(m, m', r, free, free', touched, l);
    KeptNode(m, m', r, free, free', touched, j);
    assert RootOk(m, s, free, total) && RootOk(m, t, free, total) && RootOk(m, r, free, total);
    if Joint(m, r, s, l) && Joint(m, r, t, j) {
      SameTableTree(m', r, l, j);
    } else if Joint(m, r, s, l) {
      JointNode(m, r, s, l);
    } else if Joint(m, r, t, j) {
      JointNode(m, r, t, j);
    }
  }

  lemma SameTableTree(m: Memory, r: nat, l: Loc, j: Loc)
    requires Inv(m, r) && l.Depth() <= 3 && j.Depth() <= 3 && Node(m, r, l).Some? && Node(m, r, l) == Node(m, r, j)
    ensures l == j
  {}

  /** Growth neither adds nor removes sharing between any two roots. */
  lemma {:induction false} JointKept(m: Memory, m': Memory, free: set<nat>, free': set<nat>, total: nat, k: nat,
                                     roots: set<nat>, full: set<nat>, r: nat, touched: set<nat>, s: nat, t: nat, l: Loc)
    requires Growth(m, m', free, free', total, k, roots, full, r, touched) && s in roots && t in roots && l.Depth() <= 3
    ensures Joint(m', s, t, l) <==> Joint(m, s, t, l)
  {
    hide Sys, Inv, InUse, TablesOf, Grown, Growth;
    if l.Under? { JointKept(m, m', free, free', total, k, roots, full, r, touched, s, t, l.up); }
    if Node(m', s, l).Some? && Node(m', s, l) == Node(m', t, l) {
      SameTable(m, m', free, free', total, k, roots, full, r, touched, s, l, t, l);
      if Joint(m, r, s, l) && Joint(m, r, t, l) { JointTrans(m, r, s, t, l); }
    }
    if Node(m, s, l).Some? && Node(m, s, l) == Node(m, t, l) {
      TableStays(m, m', free, free', total, k, roots, full, r, touched, s, l);
      TableStays(m, m', free, free', total, k, roots, full, r, touched, t, l);
    }
  }

  /** No table of any root moves. */
  lemma TableStays(m: Memory, m': Memory, free: set<nat>, free': set<nat>, total: nat, k: nat, roots: set<nat>,
                   full: set<nat>, r: nat, touched: set<nat>, s: nat, l: Loc)
    requires Growth(m, m', free, free', total, k, roots, full, r, touched) && s in roots && l.Depth() <= 3
             && Node(m, s, l).Some?
    ensures Node(m', s, l) == Node(m, s, l)
  {
    hide Sys, Inv, InUse, TablesOf;
    SharedNode(m, m', free, free', total, k, roots, full, r, touched, s, l);
    KeptNode(m, m', r, free, free', touched, l);
    if Joint(m, r, s, l) { JointNode(m, r, s, l); }
  }

  // ---------- the system after the growth ----------

  /** The tree of s without its user rights. */
  ghost predicate Shaped(m: Memory, s: nat, free: set<nat>, total: nat) {
    Resident(m, s) && TreeShaped(m, s) && Formed(m, s) && InUse(m, s, free) && Managed(m, s, total)
  }

  lemma SharedShape(m: Memory, m': Memory, free: set<nat>, free': set<nat>, total: nat, k: nat, roots: set<nat>,
                    full: set<nat>, r: nat, touched: set<nat>, s: nat)
    requires Growth(m, m', free, free', total, k, roots, full, r, touched) && s in roots
    ensures Shaped(m', s, free', total)
  {
    hide Growth;
    forall l: Loc | l.Depth() <= 3 && Node(m', s, l).Some?
      ensures Node(m', s, l).value in m' && 0 < Node(m', s, l).value < FRAME_BITS && Node(m', s, l).value !in free'
              && Node(m', s, l).value < total
    {
      SharedPlace(m, m', free, free', total, k, roots, full, r, touched, s, l);
    }
    forall l: Loc, j: Loc | l.Depth() <= 3 && j.Depth() <= 3 && Node(m', s, l).Some? && Node(m', s, l) == Node(m', s, j)
      ensures l == j
    {
      SameTable(m, m', free, free', total, k, roots, full, r, touched, s, l, s, j);
    }
    forall l: Loc, i: nat | l.Depth() <= 2 && i < 512 && Has(m', s, l)
      ensures EntryOk(l.Depth(), TableAt(m', s, l)[i])
    {
      SharedEntry(m, m', free, free', total, k, roots, full, r, touched, s, l, i);
    }
  }

  lemma SharedPlace(m: Memory, m': Memory, free: set<nat>, free': set<nat>, total: nat, k: nat, roots: set<nat>,
                    full: set<nat>, r: nat, touched: set<nat>, s: nat, l: Loc)
    requires Growth(m, m', free, free', total, k, roots, full, r, touched) && s in roots && l.Depth() <= 3
             && Node(m', s, l).Some?
    ensures var t := Node(m', s, l).value; t in m' && 0 < t < FRAME_BITS && t !in free' && t < total
  {
    hide Private, SameSpot, Joint, Inv;
    assert RootOk(m, s, free, total) && RootOk(m, r, free, total);
    SharedNode(m, m', free, free', total, k, roots, full, r, touched, s, l);
    KeptNode(m, m', r, free, free', touched, l);
    if Joint(m, r, s, l) {
      RootResident(m', r, l);
    } else {
      RootResident(m, s, l);
      PathResident(m, m', free, free', total, k, roots, full, r, touched, s, l);
    }
  }

  lemma SharedEntry(m: Memory, m': Memory, free: set<nat>, free': set<nat>, total: nat, k: nat, roots: set<nat>,
                    full: set<nat>, r: nat, touched: set<nat>, s: nat, l: Loc, i: nat)
    requires Growth(m, m', free, free', total, k, roots, full, r, touched) && s in roots && l.Depth() <= 2 && i < 512
             && Has(m', s, l)
    ensures EntryOk(l.Depth(), TableAt(m', s, l)[i])
  {
    hide Private, SameSpot, Joint, Resident, TreeShaped, UserOk, Grown, TablesOf, InUse;
    assert RootOk(m, s, free, total);
    SharedNode(m, m', free, free', total, k, roots, full, r, touched, s, l);
    PathResident(m, m', free, free', total, k, roots, full, r, touched, s, l);
    if Joint(m, r, s, l) {
      assert Has(m', r, l) && EntryOk(l.Depth(), TableAt(m', r, l)[i]);
    } else {
      assert Has(m, s, l) && EntryOk(l.Depth(), TableAt(m, s, l)[i]);
    }
  }

  /** The sharing invariants of the system hold after the growth. */
  lemma SharedSystem(m: Memory, m': Memory, free: set<nat>, free': set<nat>, total: nat, k: nat, roots: set<nat>,
                     full: set<nat>, r: nat, touched: set<nat>)
    requires Growth(m, m', free, free', total, k, roots, full, r, touched)
    ensures SameSpot(m', roots) && Private(m', roots, full)
    ensures forall s, p :: s in full && p in Own() ==> Node(m', s, p).Some?
    ensures forall s :: s in roots ==> Shaped(m', s, free', total)
  {
    hide Growth, Sys, Shaped, Inv, InUse, Own, Joint, Apart;
    forall s | s in roots ensures Shaped(m', s, free', total) {
      SharedShape(m, m', free, free', total, k, roots, full, r, touched, s);
    }
    forall s, t, l: Loc, j: Loc | s in roots && t in roots && l.Depth() <= 3 && j.Depth() <= 3
      && Node(m', s, l).Some? && Node(m', s, l) == Node(m', t, j)
      ensures l == j
    {
      SameTable(m, m', free, free', total, k, roots, full, r, touched, s, l, t, j);
    }
    GrowthFull(m, m', free, free', total, k, roots, full, r, touched);
    forall s, t, p | s in roots && t in roots && s != t && (s in full || t in full) && p in Own()
      ensures Apart(m', s, t, p)
    {
      OwnNotJoint(m, free, total, k, roots, full, s, t, p);
      JointKept(m, m', free, free', total, k, roots, full, r, touched, s, t, p);
      NotJointApart(m', s, t, p);
    }
    forall s, p | s in full && p in Own() ensures Node(m', s, p).Some? {
      TableStays(m, m', free, free', total, k, roots, full, r, touched, s, p);
    }
  }

  lemma GrowthFull(m: Memory, m': Memory, free: set<nat>, free': set<nat>, total: nat, k: nat, roots: set<nat>,
                   full: set<nat>, r: nat, touched: set<nat>)
    requires Growth(m, m', free, free', total, k, roots, full, r, touched)
    ensures Sys(m, free, total, k, roots, full) && full <= roots
    ensures forall s, p :: s in full && p in Own() ==> Node(m, s, p).Some?
    ensures forall p :: p in Own() ==> p.Depth() <= 3
  {
    OwnDepth();
  }

  lemma NotJointApart(m: Memory, s: nat, t: nat, l: Loc)
    requires !Joint(m, s, t, l)
    ensures Apart(m, s, t, l)
  {}

  /** A complete copy shares nothing down to its own tables. */
  lemma OwnNotJoint(m: Memory, free: set<nat>, total: nat, k: nat, roots: set<nat>, full: set<nat>, s: nat, t: nat,
                    p: Loc)
    requires Sys(m, free, total, k, roots, full) && s in roots && t in roots && s != t && (s in full || t in full)
             && p in Own()
    ensures !Joint(m, s, t, p)
  {
    hide RootOk, SameSpot;
    assert Own() == {Top, L0, L00, L01};
    assert Apart(m, s, t, Top) && Apart(m, s, t, L0) && Apart(m, s, t, p);
    assert !Joint(m, s, t, Top);
    assert !Joint(m, s, t, L0);
  }

  // ---------- user rights ----------

  /** Every link of s on the way to l that lies above the tables shared with r grants user access. */
  predicate Gate(m: Memory, r: nat, s: nat, l: Loc) {
    match l
    case Top => true
    case Under(p, i) => Gate(m, r, s, p) && (Joint(m, r, s, p) || (Has(m, s, p) && i < 512 && TableAt(m, s, p)[i].us))
  }

  lemma {:induction false} UserOpensGate(m: Memory, r: nat, s: nat, l: Loc)
    requires AllUser(m, s, l)
    ensures Gate(m, r, s, l)
  {
    if l.Under? { UserOpensGate(m, r, s, l.up); }
  }

  lemma {:induction false} GateUnshared(m: Memory, r: nat, s: nat, l: Loc)
    requires !Joint(m, r, s, l)
    ensures Gate(m, r, s, l) <==> AllUser(m, s, l)
  {
    if l.Under? { GateUnshared(m, r, s, l.up); }
  }

  /** Above the shared tables the user rights of s stay. */
  lemma {:induction false} UserKept(m: Memory, m': Memory, free: set<nat>, free': set<nat>, total: nat, k: nat,
                                    roots: set<nat>, full: set<nat>, r: nat, touched: set<nat>, s: nat, l: Loc)
    requires Growth(m, m', free, free', total, k, roots, full, r, touched) && s in roots && l.Depth() <= 3
             && !Joint(m, r, s, l)
    ensures AllUser(m', s, l) <==> AllUser(m, s, l)
  {
    hide Growth;
    if l.Under? {
      UserKept(m, m', free, free', total, k, roots, full, r, touched, s, l.up);
      SharedNode(m, m', free, free', total, k, roots, full, r, touched, s, l.up);
      PathResident(m, m', free, free', total, k, roots, full, r, touched, s, l.up);
    }
  }

  /** Where r grants user access all the way, s does exactly if its own links do. */
  lemma {:induction false} UserShared(m: Memory, m': Memory, free: set<nat>, free': set<nat>, total: nat, k: nat,
                                      roots: set<nat>, full: set<nat>, r: nat, touched: set<nat>, s: nat, l: Loc)
    requires Growth(m, m', free, free', total, k, roots, full, r, touched) && s in roots && l.Depth() <= 3
             && Joint(m, r, s, l) && AllUser(m', r, l)
    ensures AllUser(m', s, l) <==> Gate(m, r, s, l)
  {
    hide Growth;
    if l.Under? {
      var p := l.up;
      SharedNode(m, m', free, free', total, k, roots, full, r, touched, s, p);
      if Joint(m, r, s, p) {
        UserShared(m, m', free, free', total, k, roots, full, r, touched, s, p);
      } else {
        UserKept(m, m', free, free', total, k, roots, full, r, touched, s, p);
        GateUnshared(m, r, s, p);
        PathResident(m, m', free, free', total, k, roots, full, r, touched, s, p);
      }
    }
  }

  /** The page is open to the user, going by its leaf. */
  predicate UserPage(m: Memory, r: nat, q: Page)
    requires q.Valid()
  {
    View(m, r, q).To? && View(m, r, q).u
  }

  /** The pages whose user leaf lies in table l at entry i. */
  function PageAt(l: Loc, i: nat): Page
    requires l.Depth() == 2 || l.Depth() == 3
  {
    assert l.Under? && l.up.Depth() == l.Depth() - 1 && l.up.Under? && l.up.up.Depth() == l.Depth() - 2;
    if l.Depth() == 3 then Page(l.up.up.idx, l.up.idx, l.idx, i) else Page(l.up.idx, l.idx, i, 0)
  }

  lemma {:induction false} NodeIndices(m: Memory, r: nat, l: Loc)
    requires Node(m, r, l).Some?
    ensures l.Under? ==> l.idx < 512 && Node(m, r, l.up).Some?
  {}

  /** A user leaf in the tree of r is a user page. */
  lemma LeafIsUserPage(m: Memory, r: nat, l: Loc, i: nat)
    requires (l.Depth() == 2 || l.Depth() == 3) && i < 512 && Has(m, r, l) && UserLeaf(l.Depth(), TableAt(m, r, l)[i])
    requires forall j: Loc :: j.Depth() <= 3 && Node(m, r, j).Some? ==> Has(m, r, j)
    ensures PageAt(l, i).Valid() && UserPage(m, r, PageAt(l, i))
    ensures l == if l.Depth() == 3 then PtLoc(PageAt(l, i)) else PdLoc(PageAt(l, i))
  {
    NodeIndices(m, r, l);
    NodeIndices(m, r, l.up);
    if l.Depth() == 3 { NodeIndices(m, r, l.up.up); }
    var q := PageAt(l, i);
    assert l == if l.Depth() == 3 then PtLoc(q) else PdLoc(q);
    if l.Depth() == 3 { assert Has(m, r, PdLoc(q)); }
  }

  /** The leaf behind a user page. */
  lemma UserPageLeaf(m: Memory, s: nat, q: Page)
    requires q.Valid() && UserPage(m, s, q)
    ensures Has(m, s, PdLoc(q))
    ensures Node(m, s, PtLoc(q)).None? ==> UserLeaf(2, TableAt(m, s, PdLoc(q))[q.c])
    ensures Node(m, s, PtLoc(q)).Some? ==> Has(m, s, PtLoc(q)) && UserLeaf(3, TableAt(m, s, PtLoc(q))[q.d])
  {}

  /** User rights of s hold after the growth exactly if its gates are open for the shared user pages. */
  lemma SharedUser(m: Memory, m': Memory, free: set<nat>, free': set<nat>, total: nat, k: nat, roots: set<nat>,
                   full: set<nat>, r: nat, touched: set<nat>, s: nat)
    requires Growth(m, m', free, free', total, k, roots, full, r, touched) && s in roots
    ensures UserOk(m', s) <==>
              forall q: Page :: q.Valid() && Shares(m, r, s, q) && UserPage(m', r, q) ==> Gate(m, r, s, PtLoc(q))
  {
    hide Growth, View, Shares, Gate, UserPage, AllUser, Joint;
    if UserOk(m', s) {
      forall q: Page | q.Valid() && Shares(m, r, s, q) && UserPage(m', r, q) ensures Gate(m, r, s, PtLoc(q)) {
        UserNeedsGate(m, m', free, free', total, k, roots, full, r, touched, s, q);
      }
    }
    if forall q: Page :: q.Valid() && Shares(m, r, s, q) && UserPage(m', r, q) ==> Gate(m, r, s, PtLoc(q)) {
      forall l: Loc, i: nat | l.Depth() <= 3 && i < 512 && Has(m', s, l) && UserLeaf(l.Depth(), TableAt(m', s, l)[i])
        ensures AllUser(m', s, l)
      {
        GateGivesUser(m, m', free, free', total, k, roots, full, r, touched, s, l, i);
      }
    }
  }

  lemma UserNeedsGate(m: Memory, m': Memory, free: set<nat>, free': set<nat>, total: nat, k: nat, roots: set<nat>,
                      full: set<nat>, r: nat, touched: set<nat>, s: nat, q: Page)
    requires Growth(m, m', free, free', total, k, roots, full, r, touched) && s in roots && q.Valid()
             && Shares(m, r, s, q) && UserPage(m', r, q) && UserOk(m', s)
    ensures Gate(m, r, s, PtLoc(q))
  {
    hide Sys, View, Grown, TablesOf, InUse, UserPage, AllUser;
    SharedView(m, m', free, free', total, k, roots, full, r, touched, s, q);
    assert UserPage(m', s, q) by { SameUserPage(m', r, s, q); }
    UserPageLeaf(m', s, q);
    UserPageLeaf(m', r, q);
    if Node(m', s, PtLoc(q)).Some? && Node(m', r, PtLoc(q)).Some? {
      UserShared(m, m', free, free', total, k, roots, full, r, touched, s, PtLoc(q));
    } else {
      SharedNode(m, m', free, free', total, k, roots, full, r, touched, s, PtLoc(q));
      if Joint(m, r, s, PdLoc(q)) {
        UserShared(m, m', free, free', total, k, roots, full, r, touched, s, PdLoc(q));
      } else {
        OwnDirectory(m, m', free, free', total, k, roots, full, r, touched, s, q);
      }
    }
  }

  lemma SameUserPage(m: Memory, r: nat, s: nat, q: Page)
    requires q.Valid() && View(m, s, q) == View(m, r, q) && UserPage(m, r, q)
    ensures UserPage(m, s, q)
  {}

  lemma GateGivesUser(m: Memory, m': Memory, free: set<nat>, free': set<nat>, total: nat, k: nat, roots: set<nat>,
                      full: set<nat>, r: nat, touched: set<nat>, s: nat, l: Loc, i: nat)
    requires Growth(m, m', free, free', total, k, roots, full, r, touched) && s in roots && l.Depth() <= 3 && i < 512
             && Has(m', s, l) && UserLeaf(l.Depth(), TableAt(m', s, l)[i])
    requires forall q: Page :: q.Valid() && Shares(m, r, s, q) && UserPage(m', r, q) ==> Gate(m, r, s, PtLoc(q))
    ensures AllUser(m', s, l)
  {
    hide View, Grown, TablesOf, InUse, UserPage, AllUser, SameSpot, Private, TreeShaped, Formed;
    assert RootOk(m, s, free, total);
    SharedNode(m, m', free, free', total, k, roots, full, r, touched, s, l);
    PathResident(m, m', free, free', total, k, roots, full, r, touched, s, l);
    if Joint(m, r, s, l) {
      LeafIsUserPage(m', r, l, i);
      var q := PageAt(l, i);
      assert Shares(m, r, s, q);
      assert Gate(m, r, s, PtLoc(q));
      assert Gate(m, r, s, l);
      UserShared(m, m', free, free', total, k, roots, full, r, touched, s, l);
    } else {
      assert Has(m, s, l) && TableAt(m', s, l) == TableAt(m, s, l);
      assert UserLeaf(l.Depth(), TableAt(m, s, l)[i]);
      assert AllUser(m, s, l) by { UserOkAt(m, s, l, i); }
      UserKept(m, m', free, free', total, k, roots, full, r, touched, s, l);
    }
  }

  lemma UserOkAt(m: Memory, s: nat, l: Loc, i: nat)
    requires UserOk(m, s) && l.Depth() <= 3 && i < 512 && Has(m, s, l) && UserLeaf(l.Depth(), TableAt(m, s, l)[i])
    ensures AllUser(m, s, l)
  {}

  /** The system is sound after the growth of one root exactly if, for every root that shares a user page with it, that
      root's own links to the page grant user access. */
  lemma SysShared(m: Memory, m': Memory, free: set<nat>, free': set<nat>, total: nat, k: nat, roots: set<nat>,
                  full: set<nat>, r: nat, touched: set<nat>)
    requires Growth(m, m', free, free', total, k, roots, full, r, touched)
    ensures Sys(m', free', total, k, roots, full) <==>
            forall s, q: Page :: s in roots && q.Valid() && Shares(m, r, s, q) && UserPage(m', r, q) ==>
              Gate(m, r, s, PtLoc(q))
  {
    hide Growth, Sys, UserOk, Shares, UserPage, Gate;
    SharedSystem(m, m', free, free', total, k, roots, full, r, touched);
    forall s | s in roots
      ensures RootOk(m', s, free', total) <==>
                forall q: Page :: q.Valid() && Shares(m, r, s, q) && UserPage(m', r, q) ==> Gate(m, r, s, PtLoc(q))
    {
      SharedUser(m, m', free, free', total, k, roots, full, r, touched, s);
      assert Shaped(m', s, free', total);
      RootOkParts(m', s, free', total);
    }
    SysParts(m, m', free, free', total, k, roots, full, r, touched);
  }

  lemma RootOkParts(m: Memory, s: nat, free: set<nat>, total: nat)
    ensures RootOk(m, s, free, total) <==> Shaped(m, s, free, total) && UserOk(m, s)
  {}

  lemma SysParts(m: Memory, m': Memory, free: set<nat>, free': set<nat>, total: nat, k: nat, roots: set<nat>,
                 full: set<nat>, r: nat, touched: set<nat>)
    requires Growth(m, m', free, free', total, k, roots, full, r, touched) && SameSpot(m', roots)
             && Private(m', roots, full)
    requires forall s, p :: s in full && p in Own() ==> Node(m', s, p).Some?
    ensures Sys(m', free', total, k, roots, full) <==> forall s :: s in roots ==> RootOk(m', s, free', total)
  {
    hide RootOk, SameSpot, Private, Inv, InUse, Own, TablesOf;
  }

  /** Without new user pages the gates are open: the pages were open before. */
  lemma OldUserGate(m: Memory, r: nat, s: nat, q: Page)
    requires Inv(m, s) && q.Valid() && Shares(m, r, s, q) && UserPage(m, s, q)
    ensures Gate(m, r, s, PtLoc(q))
  {
    UserPageLeaf(m, s, q);
    if Node(m, s, PtLoc(q)).Some? {
      assert AllUser(m, s, PtLoc(q));
      UserOpensGate(m, r, s, PtLoc(q));
    } else {
      assert AllUser(m, s, PdLoc(q));
      UserOpensGate(m, r, s, PdLoc(q));
      assert Joint(m, r, s, PdLoc(q)) by { JointNode(m, r, s, PtLoc(q)); }
    }
  }

  // ---------- the outcome in one piece ----------

  /** Where nothing is shared, the hardware walks through the same tables as before. */
  lemma UnsharedWalk(m: Memory, m': Memory, free: set<nat>, free': set<nat>, total: nat, k: nat, roots: set<nat>,
                     full: set<nat>, r: nat, touched: set<nat>, s: nat, q: Page)
    requires Growth(m, m', free, free', total, k, roots, full, r, touched) && s in roots && q.Valid()
             && !Shares(m, r, s, q)
    ensures Walk(m', s, q) == Walk(m, s, q)
  {
    hide Grown, TablesOf, InUse, SameSpot, Private, UserOk, TreeShaped, Managed;
    assert RootOk(m, s, free, total);
    assert !Joint(m, r, s, PdLoc(q)) && !Joint(m, r, s, PdpLoc(q)) && !Joint(m, r, s, Top);
    PathResident(m, m', free, free', total, k, roots, full, r, touched, s, Top);
    PathResident(m, m', free, free', total, k, roots, full, r, touched, s, PdpLoc(q));
    PathResident(m, m', free, free', total, k, roots, full, r, touched, s, PdLoc(q));
    PathResident(m, m', free, free', total, k, roots, full, r, touched, s, PtLoc(q));
    assert Node(m, s, Top) == Some(s) && Has(m, s, Top);
    assert EntryOk(0, TableAt(m, s, Top)[q.a]);
    if Has(m, s, PdpLoc(q)) { assert EntryOk(1, TableAt(m, s, PdpLoc(q))[q.b]); }
  }

  /** What the growth of r's tree means to all roots: pages whose walk they share with r mean what they mean under r,
      the others are walked as before; and the same tables are shared. */
  ghost predicate Seen(m: Memory, m': Memory, r: nat, roots: set<nat>) {
    && (forall s, q: Page :: s in roots && q.Valid() ==>
          && View(m', s, q) == (if Shares(m, r, s, q) then View(m', r, q) else View(m, s, q))
          && (Shares(m, r, s, q) ==> View(m, s, q) == View(m, r, q))
          && (!Shares(m, r, s, q) ==> Walk(m', s, q) == Walk(m, s, q)))
    && (forall s, t, l: Loc :: s in roots && t in roots && l.Depth() <= 3 ==>
       (Joint(m', s, t, l) <==> Joint(m, s, t, l)))
  }

  /** Every root that shares a user page with r lets the user through to it. */
  ghost predicate Opened(m: Memory, m': Memory, r: nat, roots: set<nat>) {
    forall s, q: Page :: s in roots && q.Valid() && Shares(m, r, s, q) && UserPage(m', r, q) ==> Gate(m, r, s, PtLoc(q))
  }

  lemma GrowthOutcome(m: Memory, m': Memory, free: set<nat>, free': set<nat>, total: nat, k: nat, roots: set<nat>,
                      full: set<nat>, r: nat, touched: set<nat>)
    requires Growth(m, m', free, free', total, k, roots, full, r, touched)
    ensures Seen(m, m', r, roots)
    ensures Sys(m', free', total, k, roots, full) <==> Opened(m, m', r, roots)
  {
    hide Growth, Sys, Walk, View, Joint;
    SysShared(m, m', free, free', total, k, roots, full, r, touched);
    forall s, q: Page | s in roots && q.Valid()
      ensures View(m', s, q) == (if Shares(m, r, s, q) then View(m', r, q) else View(m, s, q))
      ensures Shares(m, r, s, q) ==> View(m, s, q) == View(m, r, q)
      ensures !Shares(m, r, s, q) ==> Walk(m', s, q) == Walk(m, s, q)
    {
      SharedView(m, m', free, free', total, k, roots, full, r, touched, s, q);
      if !Shares(m, r, s, q) { UnsharedWalk(m, m', free, free', total, k, roots, full, r, touched, s, q); }
    }
    forall s, t, l: Loc | s in roots && t in roots && l.Depth() <= 3 ensures Joint(m', s, t, l) <==> Joint(m, s, t, l) {
      JointKept(m, m', free, free', total, k, roots, full, r, touched, s, t, l);
    }
  }

  /** Frames that are no tables of r and were free are tables of no root. */
  lemma ForeignFrame(m: Memory, m': Memory, free: set<nat>, free': set<nat>, total: nat, k: nat, roots: set<nat>,
                     full: set<nat>, r: nat, touched: set<nat>, s: nat, f: nat)
    requires Growth(m, m', free, free', total, k, roots, full, r, touched) && s in roots && f in free
             && forall l: Loc :: l.Depth() <= 3 ==> Node(m', r, l) != Some(f)
    ensures forall l: Loc :: l.Depth() <= 3 ==> Node(m', s, l) != Some(f)
  {
    hide Growth;
    assert Sys(m, free, total, k, roots, full) by { GrowthFull(m, m', free, free', total, k, roots, full, r, touched); }
    assert RootOk(m, s, free, total);
    forall l: Loc | l.Depth() <= 3 ensures Node(m', s, l) != Some(f) {
      SharedNode(m, m', free, free', total, k, roots, full, r, touched, s, l);
    }
  }
}

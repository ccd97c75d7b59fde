/** The tree of tables under one root, its invariant, and what single entry writes do to it. */
module PageTree {
  import opened Prelude
  import opened PageTables

  /** A place in the tree: the root, or an entry index below another place. */
  datatype Loc = Top | Under(up: Loc, idx: nat) {
    function Depth(): nat { match this case Top => 0 case Under(p, _) => p.Depth() + 1 }
  }

  function PdpLoc(q: Page): (l: Loc) ensures l.Depth() == 1 { Under(Top, q.a) }
  function PdLoc(q: Page): (l: Loc) ensures l.Depth() == 2 { Under(PdpLoc(q), q.b) }
  function PtLoc(q: Page): (l: Loc) ensures l.Depth() == 3 { Under(PdLoc(q), q.c) }

  predicate Link(e: Entry) { e.present && !e.huge }

  /** The frame of the table at a place, if the walk from the root gets there. */
  function Node(m: Memory, root: nat, l: Loc): Option<nat> {
    match l
    case Top => Some(root)
    case Under(p, i) =>
      var t := Node(m, root, p);
      if t.Some? && t.value in m && i < 512 && Link(m[t.value][i]) then Some(m[t.value][i].frame) else None
  }

  /** The place holds a table that is in memory. */
  predicate Has(m: Memory, root: nat, l: Loc) {
    Node(m, root, l).Some? && Node(m, root, l).value in m
  }

  function TableAt(m: Memory, root: nat, l: Loc): Table
    requires Has(m, root, l)
  {
    m[Node(m, root, l).value]
  }

  /** Every entry on the way from the root to l grants user access. */
  predicate AllUser(m: Memory, root: nat, l: Loc) {
    match l
    case Top => true
    case Under(p, i) => Has(m, root, p) && i < 512 && TableAt(m, root, p)[i].us && AllUser(m, root, p)
  }

  /** All tables are in memory, at frames an entry can name. */
  ghost predicate Resident(m: Memory, root: nat) {
    forall l: Loc :: l.Depth() <= 3 && Node(m, root, l).Some? ==>
      Node(m, root, l).value in m && 0 < Node(m, root, l).value < FRAME_BITS
  }

  /** No table is reached at two places. */
  ghost predicate TreeShaped(m: Memory, root: nat) {
    forall l: Loc, k: Loc ::
      (l.Depth() <= 3 && k.Depth() <= 3 && Node(m, root, l).Some? && Node(m, root, l) == Node(m, root, k)) ==> l == k
  }

  /** Entries of the three upper levels: no 1 GB pages, 2 MB pages aligned, everything present writable. */
  predicate EntryOk(depth: nat, e: Entry) {
    && (depth < 2 ==> !e.huge)
    && (e.huge ==> e.present && e.frame % 512 == 0)
    && (e.present ==> e.rw)
  }

  ghost predicate Formed(m: Memory, root: nat) {
    forall l: Loc, i: nat :: l.Depth() <= 2 && i < 512 && Has(m, root, l) ==>
      EntryOk(l.Depth(), TableAt(m, root, l)[i])
  }

  predicate Leaf(depth: nat, e: Entry) {
    e.present && (depth == 3 || (depth == 2 && e.huge))
  }

  predicate UserLeaf(depth: nat, e: Entry) { Leaf(depth, e) && e.us }

  /** A leaf open to the user has user access at all its ancestors. */
  ghost predicate UserOk(m: Memory, root: nat) {
    forall l: Loc, i: nat ::
      (l.Depth() <= 3 && i < 512 && Has(m, root, l) && UserLeaf(l.Depth(), TableAt(m, root, l)[i])) ==>
          AllUser(m, root, l)
  }

  ghost predicate Inv(m: Memory, root: nat) {
    Resident(m, root) && TreeShaped(m, root) && Formed(m, root) && UserOk(m, root)
  }

  /** The translation read off the leaf entry alone. */
  function View(m: Memory, root: nat, q: Page): Translation
    requires q.Valid()
  {
    if !Has(m, root, PdLoc(q)) then Fault else
    var e2 := TableAt(m, root, PdLoc(q))[q.c];
    if e2.huge && e2.present then To(e2.frame + q.d, e2.rw, e2.us)
    else if !Has(m, root, PtLoc(q)) then Fault else
    var e1 := TableAt(m, root, PtLoc(q))[q.d];
    if e1.present then To(e1.frame, e1.rw, e1.us) else Fault
  }

  /** Under the invariant the leaf decides: the rights collected by the hardware walk are the leaf's own. */
  lemma WalkIsView(m: Memory, root: nat, q: Page)
    requires Inv(m, root) && q.Valid()
    ensures Walk(m, root, q) == View(m, root, q)
  {
    assert Node(m, root, Top) == Some(root);
    assert Has(m, root, Top);
    assert EntryOk(0, TableAt(m, root, Top)[q.a]);
    if Node(m, root, PdpLoc(q)).Some? {
      assert Has(m, root, PdpLoc(q));
      assert EntryOk(1, TableAt(m, root, PdpLoc(q))[q.b]);
      if Node(m, root, PdLoc(q)).Some? {
        assert Has(m, root, PdLoc(q));
        assert EntryOk(2, TableAt(m, root, PdLoc(q))[q.c]);
        assert UserLeaf(2, TableAt(m, root, PdLoc(q))[q.c]) ==>
          AllUser(m, root, PdLoc(q)) && AllUser(m, root, PdpLoc(q));
        if Node(m, root, PtLoc(q)).Some? {
          assert Has(m, root, PtLoc(q));
          assert UserLeaf(3, TableAt(m, root, PtLoc(q))[q.d]) ==>
            AllUser(m, root, PtLoc(q)) && AllUser(m, root, PdLoc(q)) && AllUser(m, root, PdpLoc(q));
        }
      }
    }
  }

  // ---------- writes that leave the tree alone ----------

  /** m' holds the same contents at every table of the tree. */
  ghost predicate Agrees(m: Memory, m': Memory, root: nat) {
    forall l: Loc :: l.Depth() <= 3 && Has(m, root, l) ==>
      Node(m, root, l).value in m' && m'[Node(m, root, l).value] == m[Node(m, root, l).value]
  }

  lemma {:induction false} AgreesNode(m: Memory, m': Memory, root: nat, l: Loc)
    requires Resident(m, root) && Agrees(m, m', root) && l.Depth() <= 3
    ensures Node(m', root, l) == Node(m, root, l)
    ensures AllUser(m', root, l) == AllUser(m, root, l)
  {
    match l
    case Top =>
    case Under(p, i) =>
      AgreesNode(m, m', root, p);
      if Node(m, root, p).Some? {
        assert Has(m, root, p);
      }
  }

  /** A memory that agrees on the tables of a root gives that root the same tree, invariant and translations. */
  lemma AgreesKeeps(m: Memory, m': Memory, root: nat)
    requires Inv(m, root) && Agrees(m, m', root)
    ensures forall l: Loc :: l.Depth() <= 3 ==> Node(m', root, l) == Node(m, root, l)
    ensures Inv(m', root)
    ensures forall q: Page :: q.Valid() ==> View(m', root, q) == View(m, root, q)
  {
    forall l: Loc | l.Depth() <= 3
      ensures Node(m', root, l) == Node(m, root, l)
      ensures AllUser(m', root, l) == AllUser(m, root, l)
      ensures Has(m', root, l) ==> Has(m, root, l) && TableAt(m', root, l) == TableAt(m, root, l)
      ensures Has(m, root, l) ==> Has(m', root, l)
    {
      AgreesNode(m, m', root, l);
      if Node(m, root, l).Some? { assert Has(m, root, l); }
    }
  }

  // ---------- writes of one entry ----------

  function Poke(m: Memory, t: nat, i: nat, e: Entry): Memory
    requires t in m && i < 512
  {
    m[t := m[t][i := e]]
  }

  // (1) Setting the user bit of a link.

  lemma {:induction false} UserBitNode(m: Memory, root: nat, p: Loc, i: nat, l: Loc)
    requires Resident(m, root) && TreeShaped(m, root)
    requires p.Depth() <= 2 && Has(m, root, p) && i < 512 && Link(TableAt(m, root, p)[i]) && l.Depth() <= 3
    ensures var m' := WithUserBit(m, root, p, i);
            Node(m', root, l) == Node(m, root, l) && (AllUser(m, root, l) ==> AllUser(m', root, l))
  {
    match l
    case Top =>
    case Under(k, j) =>
      UserBitNode(m, root, p, i, k);
  }

  /** The table at l after a write at (p, i), when l has not moved. */
  lemma PokeTable(m: Memory, root: nat, p: Loc, i: nat, e: Entry, l: Loc)
    requires TreeShaped(m, root) && p.Depth() <= 3 && Has(m, root, p) && i < 512 && l.Depth() <= 3
    requires Node(Poke(m, Node(m, root, p).value, i, e), root, l) == Node(m, root, l)
    ensures var m' := Poke(m, Node(m, root, p).value, i, e);
            && Has(m', root, l) == Has(m, root, l)
            && (Has(m, root, l) ==>
                  TableAt(m', root, l) == if l == p then TableAt(m, root, p)[i := e] else TableAt(m, root, l))
  {}

  /** The memory after the user bit of the link at (p, i) is set. */
  function WithUserBit(m: Memory, root: nat, p: Loc, i: nat): Memory
    requires Has(m, root, p) && i < 512
  {
    Poke(m, Node(m, root, p).value, i, TableAt(m, root, p)[i].(us := true))
  }

  lemma UserBitFacts(m: Memory, root: nat, p: Loc, i: nat)
    requires Resident(m, root) && TreeShaped(m, root)
    requires p.Depth() <= 2 && Has(m, root, p) && i < 512 && Link(TableAt(m, root, p)[i])
    ensures var m' := WithUserBit(m, root, p, i);
            && (forall l: Loc :: l.Depth() <= 3 ==>
               Node(m', root, l) == Node(m, root, l) && Has(m', root, l) == Has(m, root, l))
            && (forall l: Loc :: l.Depth() <= 3 && AllUser(m, root, l) ==> AllUser(m', root, l))
            && (forall l: Loc :: l.Depth() <= 3 && Has(m', root, l) ==>
                  TableAt(m', root, l) == if l == p then TableAt(m, root, p)[i := TableAt(m, root, p)[i].(us := true)]
                          else TableAt(m, root, l))
  {
    var e := TableAt(m, root, p)[i].(us := true);
    forall l: Loc | l.Depth() <= 3
      ensures var m' := WithUserBit(m, root, p, i);
              && Node(m', root, l) == Node(m, root, l) && Has(m', root, l) == Has(m, root, l)
              && (AllUser(m, root, l) ==> AllUser(m', root, l))
              && (Has(m', root, l) ==>
                 TableAt(m', root, l) == if l == p then TableAt(m, root, p)[i := e] else TableAt(m, root, l))
    {
      UserBitNode(m, root, p, i, l);
      PokeTable(m, root, p, i, e, l);
    }
  }

  lemma UserBitView(m: Memory, root: nat, p: Loc, i: nat, q: Page)
    requires Inv(m, root) && q.Valid()
    requires p.Depth() <= 2 && Has(m, root, p) && i < 512 && Link(TableAt(m, root, p)[i])
    ensures View(WithUserBit(m, root, p, i), root, q) == View(m, root, q)
  {
    UserBitFacts(m, root, p, i);
  }

  lemma UserBitKeepsInv(m: Memory, root: nat, p: Loc, i: nat)
    requires Inv(m, root)
    requires p.Depth() <= 2 && Has(m, root, p) && i < 512 && Link(TableAt(m, root, p)[i])
    ensures Inv(WithUserBit(m, root, p, i), root)
  {
    UserBitFacts(m, root, p, i);
    var m' := WithUserBit(m, root, p, i);
    forall l: Loc, j: nat | l.Depth() <= 3 && j < 512 && Has(m', root, l)
      && UserLeaf(l.Depth(), TableAt(m', root, l)[j])
      ensures AllUser(m', root, l)
    {
      assert UserLeaf(l.Depth(), TableAt(m, root, l)[j]);
    }
    forall l: Loc, j: nat | l.Depth() <= 2 && j < 512 && Has(m', root, l)
      ensures EntryOk(l.Depth(), TableAt(m', root, l)[j])
    {
      assert EntryOk(l.Depth(), TableAt(m, root, l)[j]);
    }
  }

  // (2) Linking in a table that is not yet in the tree.

  /** The table at f may be linked below (p, i): empty if it holds links, and its user leaves are covered. */
  ghost predicate Linkable(m: Memory, root: nat, p: Loc, i: nat, e: Entry) {
    && p.Depth() <= 2 && Has(m, root, p) && i < 512 && !Link(TableAt(m, root, p)[i])
    && Link(e) && e.rw && 0 < e.frame < FRAME_BITS && e.frame in m
    && (forall l: Loc :: l.Depth() <= 3 ==> Node(m, root, l) != Some(e.frame))
    && (p.Depth() < 2 ==> forall j: nat :: j < 512 ==> !m[e.frame][j].present && !m[e.frame][j].huge)
    && (p.Depth() == 2 ==> forall j: nat :: j < 512 && UserLeaf(3, m[e.frame][j]) ==> e.us && AllUser(m, root, p))
  }

  lemma {:induction false} LinkNode(m: Memory, root: nat, p: Loc, i: nat, e: Entry, l: Loc)
    requires Resident(m, root) && TreeShaped(m, root) && Linkable(m, root, p, i, e) && l.Depth() <= 3
    ensures var m' := Poke(m, Node(m, root, p).value, i, e);
            && Node(m', root, l) == (if l == Under(p, i) then Some(e.frame) else Node(m, root, l))
            && (AllUser(m, root, l) && Has(m, root, l) ==> AllUser(m', root, l))
  {
    match l
    case Top =>
    case Under(k, j) =>
      LinkNode(m, root, p, i, e, k);
      assert Node(m, root, Under(p, i)) == None;
      if k == Under(p, i) {
        assert p.Depth() < 2;
        assert Node(m, root, k) == None;
      } else if Node(m, root, k) == Node(m, root, p) && Node(m, root, k).Some? {
        assert k == p;
      }
  }

  lemma LinkFacts(m: Memory, root: nat, p: Loc, i: nat, e: Entry)
    requires Resident(m, root) && TreeShaped(m, root) && Linkable(m, root, p, i, e)
    ensures var m' := Poke(m, Node(m, root, p).value, i, e);
            && (forall l: Loc :: l.Depth() <= 3 ==>
                  Node(m', root, l) == if l == Under(p, i) then Some(e.frame) else Node(m, root, l))
            && (forall l: Loc :: l.Depth() <= 3 ==> Has(m', root, l) == (l == Under(p, i) || Has(m, root, l)))
            && (forall l: Loc :: l.Depth() <= 3 && Has(m', root, l) ==>
                  TableAt(m', root, l) ==
                  if l == Under(p, i) then m[e.frame] else if l == p then TableAt(m, root, p)[i := e]
                    else TableAt(m, root, l))
            && (forall l: Loc :: l.Depth() <= 3 && AllUser(m, root, l) && Has(m, root, l) ==> AllUser(m', root, l))
  {
    var m' := Poke(m, Node(m, root, p).value, i, e);
    assert Node(m, root, p) != Some(e.frame);
    forall l: Loc | l.Depth() <= 3
      ensures Node(m', root, l) == if l == Under(p, i) then Some(e.frame) else Node(m, root, l)
      ensures Has(m', root, l) == (l == Under(p, i) || Has(m, root, l))
      ensures Has(m', root, l) ==>
                TableAt(m', root, l) ==
                if l == Under(p, i) then m[e.frame] else if l == p then TableAt(m, root, p)[i := e]
                  else TableAt(m, root, l)
      ensures AllUser(m, root, l) && Has(m, root, l) ==> AllUser(m', root, l)
    {
      LinkNode(m, root, p, i, e, l);
      if l != Under(p, i) {
        PokeTable(m, root, p, i, e, l);
      }
    }
  }

  /** Linking in a new table keeps the invariant. */
  lemma LinkKeepsInv(m: Memory, root: nat, p: Loc, i: nat, e: Entry)
    requires Inv(m, root) && Linkable(m, root, p, i, e)
    ensures Inv(Poke(m, Node(m, root, p).value, i, e), root)
  {
    LinkFacts(m, root, p, i, e);
    hide Node;
    var m' := Poke(m, Node(m, root, p).value, i, e);
    forall l: Loc, j: nat | l.Depth() <= 2 && j < 512 && Has(m', root, l)
      ensures EntryOk(l.Depth(), TableAt(m', root, l)[j])
    {
      if l != Under(p, i) { assert EntryOk(l.Depth(), TableAt(m, root, l)[j]); }
    }
    forall l: Loc, j: nat | l.Depth() <= 3 && j < 512 && Has(m', root, l)
      && UserLeaf(l.Depth(), TableAt(m', root, l)[j])
      ensures AllUser(m', root, l)
    {
      if l == Under(p, i) {
        assert AllUser(m, root, p) && e.us;
        assert TableAt(m', root, p)[i] == e;
      } else {
        assert UserLeaf(l.Depth(), TableAt(m, root, l)[j]);
      }
    }
  }

  /** Linking in an empty table keeps every translation; linking in a page table changes exactly the 512 pages below. */
  lemma LinkView(m: Memory, root: nat, p: Loc, i: nat, e: Entry, q: Page)
    requires Inv(m, root) && Linkable(m, root, p, i, e) && q.Valid()
    ensures var m' := Poke(m, Node(m, root, p).value, i, e);
            View(m', root, q) ==
            if PtLoc(q) == Under(p, i) then
              var e1 := m[e.frame][q.d]; if e1.present then To(e1.frame, e1.rw, e1.us) else Fault
            else View(m, root, q)
  {
    LinkFacts(m, root, p, i, e);
    hide AllUser, UserOk, Formed, Node;
    if PtLoc(q) == Under(p, i) {
      assert PdLoc(q) == p && q.c == i;
    } else if PdLoc(q) == Under(p, i) {
      assert !Has(m, root, PdLoc(q)) && !Has(m, root, PtLoc(q));
    }
  }

  // (3) Writing a leaf entry of a page table.

  /** A leaf write keeps the invariant if its user bit is covered. */
  lemma LeafKeepsInv(m: Memory, root: nat, p: Loc, i: nat, e: Entry)
    requires Inv(m, root) && p.Depth() == 3 && Has(m, root, p) && i < 512
    requires UserLeaf(3, e) ==> AllUser(m, root, p)
    ensures Inv(Poke(m, Node(m, root, p).value, i, e), root)
  {
    LeafFacts(m, root, p, i, e);
    var m' := Poke(m, Node(m, root, p).value, i, e);
    forall l: Loc, j: nat | l.Depth() <= 2 && j < 512 && Has(m', root, l)
      ensures EntryOk(l.Depth(), TableAt(m', root, l)[j])
    {
      assert EntryOk(l.Depth(), TableAt(m, root, l)[j]);
    }
    forall l: Loc, j: nat | l.Depth() <= 3 && j < 512 && Has(m', root, l)
      && UserLeaf(l.Depth(), TableAt(m', root, l)[j])
      ensures AllUser(m', root, l)
    {
      if l != p || j != i { assert UserLeaf(l.Depth(), TableAt(m, root, l)[j]); }
    }
  }

  /** A leaf write changes the translation of its own page only. */
  lemma LeafView(m: Memory, root: nat, q: Page, e: Entry, r: Page)
    requires Inv(m, root) && q.Valid() && r.Valid() && Has(m, root, PtLoc(q))
    ensures var m' := Poke(m, Node(m, root, PtLoc(q)).value, q.d, e);
            View(m', root, r) ==
            if r == q then (if e.present then To(e.frame, e.rw, e.us) else Fault) else View(m, root, r)
  {
    LeafFacts(m, root, PtLoc(q), q.d, e);
    assert Has(m, root, PdLoc(q));
    assert Link(TableAt(m, root, PdLoc(q))[q.c]);
    if PtLoc(r) == PtLoc(q) && r.d == q.d { assert r == q; }
  }

  lemma LeafFacts(m: Memory, root: nat, p: Loc, i: nat, e: Entry)
    requires Resident(m, root) && TreeShaped(m, root) && p.Depth() == 3 && Has(m, root, p) && i < 512
    ensures var m' := Poke(m, Node(m, root, p).value, i, e);
            && (forall l: Loc :: l.Depth() <= 3 ==>
               Node(m', root, l) == Node(m, root, l) && Has(m', root, l) == Has(m, root, l))
            && (forall l: Loc :: l.Depth() <= 3 ==> AllUser(m', root, l) == AllUser(m, root, l))
            && (forall l: Loc :: l.Depth() <= 3 && Has(m', root, l) ==>
                  TableAt(m', root, l) == if l == p then TableAt(m, root, p)[i := e] else TableAt(m, root, l))
  {
    forall l: Loc | l.Depth() <= 3
      ensures var m' := Poke(m, Node(m, root, p).value, i, e);
              && Node(m', root, l) == Node(m, root, l) && Has(m', root, l) == Has(m, root, l)
              && AllUser(m', root, l) == AllUser(m, root, l)
              && (Has(m', root, l) ==>
                 TableAt(m', root, l) == if l == p then TableAt(m, root, p)[i := e] else TableAt(m, root, l))
    {
      LeafNode(m, root, p, i, e, l);
      PokeTable(m, root, p, i, e, l);
    }
  }

  lemma {:induction false} LeafNode(m: Memory, root: nat, p: Loc, i: nat, e: Entry, l: Loc)
    requires Resident(m, root) && TreeShaped(m, root) && p.Depth() == 3 && Has(m, root, p) && i < 512 && l.Depth() <= 3
    ensures var m' := Poke(m, Node(m, root, p).value, i, e);
            Node(m', root, l) == Node(m, root, l) && AllUser(m', root, l) == AllUser(m, root, l)
  {
    match l
    case Top =>
    case Under(k, j) =>
      LeafNode(m, root, p, i, e, k);
      if Node(m, root, k).Some? { assert Node(m, root, k) != Node(m, root, p); }
  }
}

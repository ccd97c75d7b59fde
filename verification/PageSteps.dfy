/** The memory updates `MapPage` is made of, as functions on physical memory, and what each of them keeps. */
module PageSteps {
  import opened Prelude
  import opened PageTables
  import opened PageTree

  // ---------- splitting a 2 MB page ----------

  /** Entry k of the page table that replaces a 2 MB entry: address base + k, the low flag bits carried over,
      bit 7 cleared, present set. Bits 52 to 63 start from zero. */
  function SplitEntry(e: Entry, k: nat): Entry {
    Entry(true, e.rw, e.us, false, (e.frame + k) % FRAME_BITS, e.attr.(avail2 := 0, nx := false))
  }

  function SplitTable(e: Entry): Table {
    seq(512, k requires 0 <= k < 512 => SplitEntry(e, k))
  }

  // ---------- what a sequence of updates keeps ----------

  /** No table of the tree is a free frame. */
  ghost predicate InUse(m: Memory, root: nat, free: set<nat>) {
    forall l: Loc :: l.Depth() <= 3 && Node(m, root, l).Some? ==> Node(m, root, l).value !in free
  }

  /** The tree only grew, by tables taken from the free frames, and only `touched` and formerly free frames changed. */
  ghost predicate Grown(m: Memory, m': Memory, root: nat, free: set<nat>, free': set<nat>, touched: set<nat>) {
    && free' <= free
    && (forall l: Loc :: l.Depth() <= 3 ==>
          || Node(m', root, l) == Node(m, root, l)
          || (Node(m, root, l).None? && Node(m', root, l).Some? && Node(m', root, l).value in free - free'))
    && (forall f :: f in m ==> f in m' && (m'[f] == m[f] || f in free || f in touched))
  }

  lemma GrownTrans(m: Memory, m1: Memory, m2: Memory, root: nat, free: set<nat>, free1: set<nat>, free2: set<nat>,
                   t1: set<nat>, t2: set<nat>)
    requires Grown(m, m1, root, free, free1, t1) && Grown(m1, m2, root, free1, free2, t2)
    ensures Grown(m, m2, root, free, free2, t1 + t2)
  {}

  lemma GrownWider(m: Memory, m': Memory, root: nat, free: set<nat>, free': set<nat>, t: set<nat>, t': set<nat>)
    requires Grown(m, m', root, free, free', t) && t <= t' + free
    ensures Grown(m, m', root, free, free', t')
  {}

  /** All translations of a root are the same. */
  ghost predicate SameViews(m: Memory, m': Memory, root: nat) {
    forall q: Page :: q.Valid() ==> View(m', root, q) == View(m, root, q)
  }

  /** User access along the tree is never taken away. */
  ghost predicate UserGrows(m: Memory, m': Memory, root: nat) {
    forall l: Loc :: l.Depth() <= 3 && Has(m, root, l) && AllUser(m, root, l) ==> AllUser(m', root, l)
  }

  // ---------- the steps ----------

  /** Filling a free frame (memset or table set-up) is invisible to the tree. */
  lemma FillFree(m: Memory, root: nat, free: set<nat>, f: nat, t: Table)
    requires Inv(m, root) && InUse(m, root, free) && f in free
    ensures var m' := m[f := t];
            && Inv(m', root) && SameViews(m, m', root) && UserGrows(m, m', root)
            && Grown(m, m', root, free, free - {f}, {}) && InUse(m', root, free - {f})
            && (forall l: Loc :: l.Depth() <= 3 ==>
               Node(m', root, l) == Node(m, root, l) && Node(m', root, l) != Some(f))
            && (forall l: Loc :: l.Depth() <= 3 ==> AllUser(m', root, l) == AllUser(m, root, l))
  {
    var m' := m[f := t];
    forall l: Loc | l.Depth() <= 3 && Has(m, root, l)
      ensures Node(m, root, l).value in m' && m'[Node(m, root, l).value] == m[Node(m, root, l).value]
    {
      assert Node(m, root, l).value != f;
    }
    AgreesKeeps(m, m', root);
    forall l: Loc | l.Depth() <= 3 ensures AllUser(m', root, l) == AllUser(m, root, l) {
      AgreesNode(m, m', root, l);
    }
  }

  /** The entry `EnsureEntry` writes when nothing is there. */
  function NewLink(e: Entry, f: nat, user: bool): Entry {
    WithFrame(e, f).(present := true, rw := true, us := user)
  }

  /** A zeroed frame outside the tree may be linked in wherever the entry is absent. */
  lemma ZeroTableLinkable(m: Memory, root: nat, p: Loc, i: nat, f: nat, user: bool)
    requires Inv(m, root)
    requires f in m && m[f] == ZERO_TABLE && 0 < f < FRAME_BITS
    requires forall l: Loc :: l.Depth() <= 3 ==> Node(m, root, l) != Some(f)
    requires p.Depth() <= 2 && Has(m, root, p) && i < 512 && !TableAt(m, root, p)[i].present
    ensures Linkable(m, root, p, i, NewLink(TableAt(m, root, p)[i], f, user))
  {
    assert EntryOk(p.Depth(), TableAt(m, root, p)[i]);
    assert forall j: nat :: j < 512 ==> m[f][j] == ZERO_ENTRY;
  }

  lemma AbsentView(m: Memory, root: nat, q: Page)
    requires q.Valid() && Has(m, root, PdLoc(q)) && !TableAt(m, root, PdLoc(q))[q.c].present
    ensures View(m, root, q) == Fault
  {}

  /** `EnsureEntry` on an absent entry: a zeroed frame f is linked in; every translation stays. */
  lemma EnsureNew(m: Memory, root: nat, p: Loc, i: nat, f: nat, user: bool)
    requires Inv(m, root)
    requires f in m && m[f] == ZERO_TABLE && 0 < f < FRAME_BITS
    requires forall l: Loc :: l.Depth() <= 3 ==> Node(m, root, l) != Some(f)
    requires p.Depth() <= 2 && Has(m, root, p) && i < 512 && !TableAt(m, root, p)[i].present
    ensures var m' := Poke(m, Node(m, root, p).value, i, NewLink(TableAt(m, root, p)[i], f, user));
            && Inv(m', root) && SameViews(m, m', root)
            && Attached(m, m', root, p, i, f)
            && (user && AllUser(m, root, p) ==> AllUser(m', root, Under(p, i)))
  {
    hide Inv, Linkable, View, AllUser;
    var e := NewLink(TableAt(m, root, p)[i], f, user);
    ZeroTableLinkable(m, root, p, i, f, user);
    LinkKeepsInv(m, root, p, i, e);
    var m' := Poke(m, Node(m, root, p).value, i, e);
    forall q: Page | q.Valid() ensures View(m', root, q) == View(m, root, q) {
      LinkView(m, root, p, i, e, q);
      if PtLoc(q) == Under(p, i) {
        AbsentView(m, root, q);
        assert m[f][q.d] == ZERO_ENTRY;
      }
    }
    AttachedByLink(m, root, p, i, e);
  }

  /** f is now the table at (p, i); nothing else in the tree moved and no user access was lost. */
  ghost predicate Attached(m: Memory, m': Memory, root: nat, p: Loc, i: nat, f: nat) {
    && Node(m', root, Under(p, i)) == Some(f)
    && (forall l: Loc :: l.Depth() <= 3 && l != Under(p, i) ==> Node(m', root, l) == Node(m, root, l))
    && UserGrows(m, m', root)
  }

  lemma AttachedByLink(m: Memory, root: nat, p: Loc, i: nat, e: Entry)
    requires Inv(m, root) && Linkable(m, root, p, i, e)
    ensures var m' := Poke(m, Node(m, root, p).value, i, e);
            Attached(m, m', root, p, i, e.frame) && (e.us && AllUser(m, root, p) ==> AllUser(m', root, Under(p, i)))
  {
    LinkFacts(m, root, p, i, e);
    assert TableAt(Poke(m, Node(m, root, p).value, i, e), root, p)[i] == e;
  }

  /** The entry a 2 MB entry is replaced with by the split. */
  function SplitLink(e: Entry, f: nat, user: bool): Entry {
    WithFrame(e, f).(huge := false, present := true, us := e.us || user)
  }

  lemma SplitTableLinkable(m: Memory, root: nat, p: Loc, i: nat, f: nat, user: bool)
    requires Inv(m, root)
    requires p.Depth() == 2 && Has(m, root, p) && i < 512
    requires TableAt(m, root, p)[i].present && TableAt(m, root, p)[i].huge
    requires f in m && m[f] == SplitTable(TableAt(m, root, p)[i]) && 0 < f < FRAME_BITS
    requires forall l: Loc :: l.Depth() <= 3 ==> Node(m, root, l) != Some(f)
    ensures Linkable(m, root, p, i, SplitLink(TableAt(m, root, p)[i], f, user))
  {
    var e2 := TableAt(m, root, p)[i];
    assert EntryOk(p.Depth(), e2);
    assert UserLeaf(2, e2) ==> AllUser(m, root, p);
    assert forall j: nat :: j < 512 ==> m[f][j] == SplitEntry(e2, j);
  }

  /** The split of a 2 MB page keeps every translation, including those of its 512 small pages. */
  lemma Split(m: Memory, root: nat, p: Loc, i: nat, f: nat, user: bool)
    requires Inv(m, root)
    requires p.Depth() == 2 && Has(m, root, p) && i < 512
    requires TableAt(m, root, p)[i].present && TableAt(m, root, p)[i].huge
    requires f in m && m[f] == SplitTable(TableAt(m, root, p)[i]) && 0 < f < FRAME_BITS
    requires forall l: Loc :: l.Depth() <= 3 ==> Node(m, root, l) != Some(f)
    ensures var m' := Poke(m, Node(m, root, p).value, i, SplitLink(TableAt(m, root, p)[i], f, user));
            && Inv(m', root) && SameViews(m, m', root)
            && Attached(m, m', root, p, i, f)
  {
    hide Linkable, AllUser;
    var e2 := TableAt(m, root, p)[i];
    var e := SplitLink(e2, f, user);
    SplitTableLinkable(m, root, p, i, f, user);
    LinkKeepsInv(m, root, p, i, e);
    var m' := Poke(m, Node(m, root, p).value, i, e);
    forall q: Page | q.Valid() ensures View(m', root, q) == View(m, root, q) {
      LinkView(m, root, p, i, e, q);
      if PtLoc(q) == Under(p, i) {
        assert EntryOk(2, e2);
        assert m[f][q.d] == SplitEntry(e2, q.d);
        NoCarry(e2.frame, q.d);
      }
    }
    AttachedByLink(m, root, p, i, e);
  }

  lemma NoCarry(frame: nat, d: nat)
    requires frame < FRAME_BITS && frame % 512 == 0 && d < 512
    ensures (frame + d) % FRAME_BITS == frame + d
  {}

  // ---------- the steps, with their effect on the free frames ----------

  /** A step that no translation notices. */
  ghost predicate Quiet(m: Memory, m': Memory, root: nat, free: set<nat>, free': set<nat>, touched: set<nat>) {
    Inv(m', root) && SameViews(m, m', root) && UserGrows(m, m', root) && InUse(m', root, free')
    && Grown(m, m', root, free, free', touched)
  }

  lemma QuietTrans(m: Memory, m1: Memory, m2: Memory, root: nat, free: set<nat>, free1: set<nat>, free2: set<nat>,
                   t1: set<nat>, t2: set<nat>)
    requires InUse(m, root, free) && Inv(m, root)
    requires Quiet(m, m1, root, free, free1, t1) && Quiet(m1, m2, root, free1, free2, t2)
    ensures Quiet(m, m2, root, free, free2, t1 + t2)
  {
    GrownTrans(m, m1, m2, root, free, free1, free2, t1, t2);
    forall l: Loc | l.Depth() <= 3 && Has(m, root, l) && AllUser(m, root, l) ensures AllUser(m2, root, l) {
      assert Has(m1, root, l);
    }
  }

  lemma QuietRefl(m: Memory, root: nat, free: set<nat>, t: set<nat>)
    requires InUse(m, root, free) && Inv(m, root)
    ensures Quiet(m, m, root, free, free, t)
  {}

  /** Exactly the place (p, i) gained a table. */
  ghost predicate GainsOnly(m: Memory, m': Memory, root: nat, p: Loc, i: nat) {
    forall l: Loc :: l.Depth() <= 3 ==> (Node(m', root, l).None? <==> Node(m, root, l).None? && l != Under(p, i))
  }

  lemma AttachedIsGrown(m: Memory, m0: Memory, m': Memory, root: nat, free: set<nat>, p: Loc, i: nat, f: nat, t: nat)
    requires f in free && m0.Keys == m.Keys + {f} && (forall g :: g in m && g != f ==> m0[g] == m[g])
    requires m'.Keys == m0.Keys && (forall g :: g in m0 && g != t ==> m'[g] == m0[g])
    requires forall l: Loc :: l.Depth() <= 3 ==> Node(m0, root, l) == Node(m, root, l)
    requires Node(m, root, Under(p, i)).None?
    requires Attached(m0, m', root, p, i, f) && InUse(m, root, free)
    ensures Grown(m, m', root, free, free - {f}, {t}) && InUse(m', root, free - {f})
    ensures GainsOnly(m, m', root, p, i)
  {
    forall g | g in m ensures g in m' && (m'[g] == m[g] || g in free || g in {t}) {
      assert g in m0;
    }
  }

  /** `EnsureEntry` on an absent entry, from the allocation on. */
  lemma EnsureNewStep(m: Memory, root: nat, free: set<nat>, p: Loc, i: nat, f: nat, user: bool)
    requires Inv(m, root) && InUse(m, root, free) && f in free && 0 < f < FRAME_BITS
    requires p.Depth() <= 2 && Has(m, root, p) && i < 512 && !TableAt(m, root, p)[i].present
    ensures var t, e := Node(m, root, p).value, TableAt(m, root, p)[i];
            t != f &&
            var m' := Poke(m[f := ZERO_TABLE], t, i, NewLink(e, f, user));
            && Quiet(m, m', root, free, free - {f}, {t})
            && Node(m', root, Under(p, i)) == Some(f) && GainsOnly(m, m', root, p, i)
            && (user && AllUser(m, root, p) ==> AllUser(m', root, Under(p, i)))
  {
    var t, e := Node(m, root, p).value, TableAt(m, root, p)[i];
    assert t != f;
    var m0 := m[f := ZERO_TABLE];
    FillFree(m, root, free, f, ZERO_TABLE);
    assert Node(m0, root, p) == Some(t) && TableAt(m0, root, p)[i] == e;
    EnsureNew(m0, root, p, i, f, user);
    var m' := Poke(m0, t, i, NewLink(e, f, user));
    AttachedIsGrown(m, m0, m', root, free, p, i, f, t);
    UserGrowsVia(m, m0, m', root);
  }

  lemma UserGrowsVia(m: Memory, m0: Memory, m': Memory, root: nat)
    requires Resident(m0, root) && UserGrows(m0, m', root)
    requires forall l: Loc :: l.Depth() <= 3 ==>
               Node(m0, root, l) == Node(m, root, l) && AllUser(m0, root, l) == AllUser(m, root, l)
    ensures UserGrows(m, m', root)
  {
    forall l: Loc | l.Depth() <= 3 && Has(m, root, l) && AllUser(m, root, l) ensures AllUser(m', root, l) {
      assert Has(m0, root, l);
    }
  }

  /** The split, from the allocation on. */
  lemma SplitStep(m: Memory, root: nat, free: set<nat>, p: Loc, i: nat, f: nat, user: bool)
    requires Inv(m, root) && InUse(m, root, free) && f in free && 0 < f < FRAME_BITS
    requires p.Depth() == 2 && Has(m, root, p) && i < 512
    requires TableAt(m, root, p)[i].present && TableAt(m, root, p)[i].huge
    ensures var t, e := Node(m, root, p).value, TableAt(m, root, p)[i];
            t != f &&
            var m' := Poke(m[f := SplitTable(e)], t, i, SplitLink(e, f, user));
            && Quiet(m, m', root, free, free - {f}, {t})
            && Node(m', root, Under(p, i)) == Some(f) && GainsOnly(m, m', root, p, i)
  {
    var t, e := Node(m, root, p).value, TableAt(m, root, p)[i];
    assert t != f;
    var m0 := m[f := SplitTable(e)];
    FillFree(m, root, free, f, SplitTable(e));
    assert Node(m0, root, p) == Some(t) && TableAt(m0, root, p)[i] == e;
    Split(m0, root, p, i, f, user);
    var m' := Poke(m0, t, i, SplitLink(e, f, user));
    AttachedIsGrown(m, m0, m', root, free, p, i, f, t);
    UserGrowsVia(m, m0, m', root);
  }

  /** `EnsureEntry` on a present link with the user flag. */
  lemma EnsureUserStep(m: Memory, root: nat, free: set<nat>, p: Loc, i: nat)
    requires Inv(m, root) && InUse(m, root, free)
    requires p.Depth() <= 2 && Has(m, root, p) && i < 512 && Link(TableAt(m, root, p)[i])
    ensures var m' := WithUserBit(m, root, p, i);
            && Quiet(m, m', root, free, free, {Node(m, root, p).value})
            && Node(m', root, Under(p, i)) == Node(m, root, Under(p, i))
            && (forall l: Loc :: l.Depth() <= 3 ==> Node(m', root, l) == Node(m, root, l))
            && (AllUser(m, root, p) ==> AllUser(m', root, Under(p, i)))
  {
    UserBitFacts(m, root, p, i);
    UserBitKeepsInv(m, root, p, i);
    var m' := WithUserBit(m, root, p, i);
    forall q: Page | q.Valid() ensures View(m', root, q) == View(m, root, q) {
      UserBitView(m, root, p, i, q);
    }
    assert TableAt(m', root, p)[i].us;
  }

  /** The final write of `MapPage`. */
  function LeafEntry(e: Entry, paddr: nat, flags: Flags): Entry {
    WithFrame(e, paddr / 0x1000).(present := flags.p, rw := flags.w, us := flags.u)
  }

  lemma LeafStep(m: Memory, root: nat, free: set<nat>, q: Page, paddr: nat, flags: Flags)
    requires Inv(m, root) && InUse(m, root, free) && q.Valid() && Has(m, root, PtLoc(q))
    requires flags.u ==> AllUser(m, root, PtLoc(q))
    ensures var t := Node(m, root, PtLoc(q)).value;
            var m' := Poke(m, t, q.d, LeafEntry(m[t][q.d], paddr, flags));
            && Inv(m', root) && InUse(m', root, free) && Grown(m, m', root, free, free, {t})
            && (forall l: Loc :: l.Depth() <= 3 ==> Node(m', root, l) == Node(m, root, l))
            && View(m', root, q) == Requested(paddr, flags)
            && (forall r: Page :: r.Valid() && r != q ==> View(m', root, r) == View(m, root, r))
  {
    var t := Node(m, root, PtLoc(q)).value;
    var e := LeafEntry(m[t][q.d], paddr, flags);
    LeafFacts(m, root, PtLoc(q), q.d, e);
    LeafKeepsInv(m, root, PtLoc(q), q.d, e);
    var m' := Poke(m, t, q.d, e);
    forall r: Page | r.Valid()
      ensures View(m', root, r) == if r == q then Requested(paddr, flags) else View(m, root, r)
    {
      LeafView(m, root, q, e, r);
    }
  }
}

/** The tables `PageManager::Initialize` builds: the first 64 GB mapped to themselves with 2 MB pages. */
module PageBoot {
  import opened Prelude
  import opened PageTables
  import opened PageTree

  /** A link open to the user. */
  function Dir(f: nat): Entry {
    WithFrame(ZERO_ENTRY, f).(present := true, rw := true, us := true)
  }

  /** The 2 MB entry j of the page directory for gigabyte i. */
  function Identity2M(i: nat, j: nat): Entry {
    WithFrame(ZERO_ENTRY, i * 0x40000 + j * 512).(present := true, rw := true, huge := true, us := true)
  }

  /** The root, the page-directory-pointer table and the page directories are distinct usable frames. */
  ghost predicate Usable(m: Memory, root: nat, pdp: nat, pds: seq<nat>) {
    && root in m && pdp in m && root != pdp && 0 < root < FRAME_BITS && 0 < pdp < FRAME_BITS
    && (forall i :: 0 <= i < |pds| ==> pds[i] in m && 0 < pds[i] < FRAME_BITS && pds[i] != root && pds[i] != pdp)
    && (forall i, j :: 0 <= i < j < |pds| ==> pds[i] != pds[j])
  }

  /** The contents of the boot tables once the first n page directories are linked and filled. */
  ghost predicate Built(m: Memory, root: nat, pdp: nat, pds: seq<nat>) {
    && Usable(m, root, pdp, pds)
    && |pds| <= 64
    && (forall i: nat :: i < 512 ==> m[root][i] == if i == 0 then Dir(pdp) else ZERO_ENTRY)
    && (forall i: nat :: i < 512 ==> m[pdp][i] == if i < |pds| then Dir(pds[i]) else ZERO_ENTRY)
    && (forall i: nat, j: nat :: i < |pds| && j < 512 ==> m[pds[i]][j] == Identity2M(i, j))
  }

  /** Where the boot tables sit in the tree. */
  function BootPlace(root: nat, pdp: nat, pds: seq<nat>, l: Loc): Option<nat> {
    if l == Top then Some(root)
    else if l == Under(Top, 0) then Some(pdp)
    else if l.up == Under(Top, 0) && l.idx < |pds| then Some(pds[l.idx])
    else None
  }

  lemma BootNode(m: Memory, root: nat, pdp: nat, pds: seq<nat>, l: Loc)
    requires Built(m, root, pdp, pds) && l.Depth() <= 3
    ensures Node(m, root, l) == BootPlace(root, pdp, pds, l)
    ensures AllUser(m, root, l) || !Has(m, root, l)
  {
    match l
    case Top =>
    case Under(k, i) =>
      BootNode(m, root, pdp, pds, k);
  }

  lemma BootShape(m: Memory, root: nat, pdp: nat, pds: seq<nat>)
    requires Built(m, root, pdp, pds)
    ensures Resident(m, root) && TreeShaped(m, root) && UserOk(m, root)
    ensures forall l: Loc :: l.Depth() <= 3 ==> Node(m, root, l) == BootPlace(root, pdp, pds, l)
  {
    assert Usable(m, root, pdp, pds);
    hide Built, Node, AllUser;
    forall l: Loc | l.Depth() <= 3
      ensures Node(m, root, l) == BootPlace(root, pdp, pds, l)
      ensures AllUser(m, root, l) || !Has(m, root, l)
    {
      BootNode(m, root, pdp, pds, l);
    }
  }

  /** The boot tables satisfy the tree invariant, and translate exactly the pages below |pds| GB, each to itself. */
  lemma BootTree(m: Memory, root: nat, pdp: nat, pds: seq<nat>)
    requires Built(m, root, pdp, pds)
    ensures Inv(m, root)
    ensures forall q: Page :: q.Valid() ==>
              Walk(m, root, q) == if q.Number() < |pds| * 0x40000 then To(q.Number(), true, true) else Fault
  {
    BootShape(m, root, pdp, pds);
    forall l: Loc, i: nat | l.Depth() <= 2 && i < 512 && Has(m, root, l)
      ensures EntryOk(l.Depth(), TableAt(m, root, l)[i])
    {
      BootEntry(m, root, pdp, pds, l, i);
    }
    forall q: Page | q.Valid()
      ensures Walk(m, root, q) == if q.Number() < |pds| * 0x40000 then To(q.Number(), true, true) else Fault
    {
      BootWalk(m, root, pdp, pds, q);
    }
  }

  lemma BootEntry(m: Memory, root: nat, pdp: nat, pds: seq<nat>, l: Loc, i: nat)
    requires Built(m, root, pdp, pds) && l.Depth() <= 2 && i < 512 && Has(m, root, l)
    ensures EntryOk(l.Depth(), TableAt(m, root, l)[i])
  {
    BootNode(m, root, pdp, pds, l);
    hide Node, AllUser, Identity2M;
    if l != Top && l != Under(Top, 0) {
      assert m[pds[l.idx]][i] == Identity2M(l.idx, i);
      IdentityOk(l.idx, i);
    }
  }

  lemma IdentityOk(i: nat, j: nat)
    requires i < 64 && j < 512
    ensures EntryOk(2, Identity2M(i, j))
  {
    var f := i * 0x40000 + j * 512;
    assert f == 512 * (i * 512 + j) && f < FRAME_BITS;
  }

  lemma BootWalk(m: Memory, root: nat, pdp: nat, pds: seq<nat>, q: Page)
    requires Built(m, root, pdp, pds) && q.Valid()
    ensures Walk(m, root, q) == if q.Number() < |pds| * 0x40000 then To(q.Number(), true, true) else Fault
  {
    assert q.Number() == q.a * 0x800_0000 + q.b * 0x40000 + q.c * 512 + q.d;
    if q.a == 0 && q.b < |pds| {
      assert m[pds[q.b]][q.c] == Identity2M(q.b, q.c);
      var f := q.b * 0x40000 + q.c * 512;
      assert f == 512 * (q.b * 512 + q.c) && f < FRAME_BITS;
    }
  }

  /** The boot tables are managed frames that are not free. */
  ghost predicate BootInUse(root: nat, pdp: nat, pds: seq<nat>, free: set<nat>, total: nat) {
    && root !in free && pdp !in free && root < total && pdp < total
    && forall i :: 0 <= i < |pds| ==> pds[i] !in free && pds[i] < total
  }

  /** The page directory of one gigabyte, filled. */
  function Directory(i: nat): Table {
    seq(512, j requires 0 <= j < 512 => Identity2M(i, j))
  }

  /** Linking and filling one more page directory. */
  lemma BuildNext(m: Memory, root: nat, pdp: nat, pds: seq<nat>, free: set<nat>, total: nat, f: nat)
    requires Built(m, root, pdp, pds) && |pds| < 64 && BootInUse(root, pdp, pds, free, total)
    requires f in free && 0 < f < FRAME_BITS && f < total
    ensures var m' := Poke(m[f := ZERO_TABLE], pdp, |pds|, Dir(f))[f := Directory(|pds|)];
            Built(m', root, pdp, pds + [f])
    ensures BootInUse(root, pdp, pds + [f], free - {f}, total)
  {
    var m' := Poke(m[f := ZERO_TABLE], pdp, |pds|, Dir(f))[f := Directory(|pds|)];
    var pds' := pds + [f];
    forall i: nat, j: nat | i < |pds'| && j < 512 ensures m'[pds'[i]][j] == Identity2M(i, j) {
      if i < |pds| { assert pds'[i] == pds[i]; }
    }
  }

  lemma BuildFirst(m: Memory, root: nat, pdp: nat)
    requires root != pdp && 0 < root < FRAME_BITS && 0 < pdp < FRAME_BITS
    requires root in m && m[root] == ZERO_TABLE
    ensures Built(Poke(m[pdp := ZERO_TABLE], root, 0, Dir(pdp)), root, pdp, [])
  {}

  lemma BootInUseTree(m: Memory, root: nat, pdp: nat, pds: seq<nat>, free: set<nat>, total: nat, l: Loc)
    requires Built(m, root, pdp, pds) && BootInUse(root, pdp, pds, free, total) && l.Depth() <= 3
    ensures Node(m, root, l).Some? ==> Node(m, root, l).value !in free && Node(m, root, l).value < total
  {
    BootNode(m, root, pdp, pds, l);
  }
}

/** Changing one directory slot, and the volume updates made of such changes. */
module FatUpdates {
  import opened Prelude
  import opened FatDisk
  import opened FatEntries
  import opened FatChains
  import opened FatVolume

  /** The image with one slot rewritten. */
  function WithSlot(a: Image, r: Ref, e: DirEntry): Image
    requires r.dir < |a.data| && r.idx < Slots(a.data[r.dir])
  {
    a.(data := a.data[r.dir := PutEntry(a.data[r.dir], r.idx, e)])
  }

  lemma SlotFrame(a: Image, r: Ref, e: DirEntry, s: Ref)
    requires r.dir < |a.data| && r.idx < Slots(a.data[r.dir]) && s.dir < |a.data| && s.idx < Slots(a.data[s.dir])
    ensures var b := WithSlot(a, r, e);
            s.idx < Slots(b.data[s.dir]) && SlotAt(b, s) == if s == r then e else SlotAt(a, s)
  {
    if s.dir == r.dir { EntryAfterPut(a.data[r.dir], r.idx, e, s.idx); }
  }

  /** Slot r holds entry e. */
  ghost predicate SlotIs(a: Image, r: Ref, e: DirEntry) {
    r.dir < |a.data| && r.idx < Slots(a.data[r.dir]) && SlotAt(a, r) == e
  }

  lemma SlotWritten(a: Image, r: Ref, e: DirEntry)
    requires r.dir < |a.data| && r.idx < Slots(a.data[r.dir])
    ensures SlotIs(WithSlot(a, r, e), r, e)
  {
    SlotFrame(a, r, e, r);
  }

  lemma WithSlotWf(a: Image, y: Layout, r: Ref, e: DirEntry)
    requires Wf(a, y) && r.dir < 128 && r.idx < Slots(a.data[r.dir])
    ensures Wf(WithSlot(a, r, e), y)
  {}

  /** v and v' differ at slot r only. */
  ghost predicate DifferAt(v: Volume, v': Volume, r: Ref) {
    && v'.dirs == v.dirs
    && (forall s :: s != r ==> (s in v'.files <==> s in v.files) && (s in v'.subs <==> s in v.subs))
    && (forall s :: s != r && s in v.files ==> v'.files[s] == v.files[s])
    && (forall s :: s != r && s in v.subs ==> v'.subs[s] == v.subs[s])
  }

  /** The new entry e at r says what v' claims about r. */
  ghost predicate SlotSound(a: Image, y: Layout, v: Volume, v': Volume, r: Ref, e: DirEntry)
    requires Wf(a, y)
  {
    && (r in v'.files ==>
          && FileEntry(e, v'.files[r], y.cb) && IsChain(a.fat, v'.files[r])
          && (forall i :: 0 <= i < |v'.files[r]| ==> v'.files[r][i] !in v.dirs)
          && (forall s :: s in v.files && s != r ==>
             NoShare(v'.files[r], v.files[s]) && NoShare(v.files[s], v'.files[r])))
    && Proper(r, y.root)
    && (r in v'.subs ==>
          && SubEntry(e, v'.subs[r]) && v'.subs[r] in v.dirs && v'.subs[r] != y.root
          && v'.subs[r] < |a.data| && LeadsUp(a.data[v'.subs[r]], r.dir, y.root)
          && (forall s :: s in v.subs && s != r ==> v.subs[s] != v'.subs[r]))
    && (!Vacant(e) ==> r in v'.files || r in v'.subs || DotSlot(r, e, y.root))
  }

  lemma PutDir(a: Image, y: Layout, v: Volume, v': Volume, r: Ref, e: DirEntry, d: nat)
    requires VolInv(a, y, v) && ValidRef(a, v, r) && DifferAt(v, v', r) && SlotSound(a, y, v, v', r, e)
    requires e[0] != 0 && Takeable(a, r) && d in v.dirs
    ensures Wf(WithSlot(a, r, e), y) && DirOk(WithSlot(a, r, e), y, v', d)
  {
    hide Dotted, LeadsUp;
    var b := WithSlot(a, r, e);
    assert DirOk(a, y, v, d);
    if d == r.dir {
      if d != y.root { PutKeepsDots(a.data[d], r.idx, e, d); }
      PutKeepsTail(a.data[d], r.idx, e);
      forall i: nat | i < Slots(b.data[d]) && !Vacant(EntryAt(b.data[d], i))
        ensures Ref(d, i) in v'.files || Ref(d, i) in v'.subs || DotSlot(Ref(d, i), EntryAt(b.data[d], i), y.root)
      {
        SlotFrame(a, r, e, Ref(d, i));
      }
    }
  }

  lemma PutKeepsDots(dir: seq<byte>, i: nat, e: DirEntry, d: nat)
    requires 2 <= i < Slots(dir)
    ensures Dotted(dir, d) ==> Dotted(PutEntry(dir, i, e), d)
    ensures forall p, root :: LeadsUp(dir, p, root) ==> LeadsUp(PutEntry(dir, i, e), p, root)
  {
    hide PutEntry, EntryAt;
    EntryAfterPut(dir, i, e, 0);
    EntryAfterPut(dir, i, e, 1);
  }

  lemma PutFile(a: Image, y: Layout, v: Volume, v': Volume, r: Ref, e: DirEntry, s: Ref)
    requires VolInv(a, y, v) && ValidRef(a, v, r) && DifferAt(v, v', r) && SlotSound(a, y, v, v', r, e)
    requires s in v'.files
    ensures Wf(WithSlot(a, r, e), y) && FileOk(WithSlot(a, r, e), y, v', s)
    ensures SlotAt(WithSlot(a, r, e), s) == if s == r then e else SlotAt(a, s)
    ensures Flatten(WithSlot(a, r, e).data, v'.files[s]) == Flatten(a.data, v'.files[s])
  {
    hide IsChain, VolInv, FileEntry, EntryAt, PutEntry, Flatten;
    VolParts(a, y, v);
    var b := WithSlot(a, r, e);
    if s != r {
      assert FileOk(a, y, v, s);
    }
    ChainBounds(a.fat, v'.files[s]);
    WithSlotWf(a, y, r, e);
    SlotFrame(a, r, e, s);
    assert forall i :: 0 <= i < |v'.files[s]| ==> v'.files[s][i] != r.dir;
    FlattenSame(a.data, b.data, v'.files[s]);
  }

  /** The slot was in use, or all slots before it are. */
  ghost predicate Takeable(a: Image, r: Ref)
    requires r.dir < |a.data| && r.idx < Slots(a.data[r.dir])
  {
    SlotAt(a, r)[0] != 0 || forall j: nat :: j < r.idx ==> EntryAt(a.data[r.dir], j)[0] != 0
  }

  /** Rewriting one slot soundly keeps the invariant. */
  lemma VolPut(a: Image, y: Layout, v: Volume, v': Volume, r: Ref, e: DirEntry)
    requires VolInv(a, y, v) && ValidRef(a, v, r) && DifferAt(v, v', r) && SlotSound(a, y, v, v', r, e)
    requires e[0] != 0 && Takeable(a, r)
    ensures VolInv(WithSlot(a, r, e), y, v')
  {
    hide DirOk, FileOk, SubOk, FileEntry, SubEntry, Flatten, NoShare, WithSlot, Takeable;
    var b := WithSlot(a, r, e);
    assert DirOk(a, y, v, r.dir);
    WithSlotWf(a, y, r, e);
    forall d | d in v'.dirs ensures DirOk(b, y, v', d) { PutDir(a, y, v, v', r, e, d); }
    forall s | s in v'.files ensures FileOk(b, y, v', s) { PutFile(a, y, v, v', r, e, s); }
    forall s | s in v'.subs ensures SubOk(b, y, v', s) { PutSub(a, y, v, v', r, e, s); }
  }

  lemma PutSub(a: Image, y: Layout, v: Volume, v': Volume, r: Ref, e: DirEntry, s: Ref)
    requires VolInv(a, y, v) && ValidRef(a, v, r) && DifferAt(v, v', r) && SlotSound(a, y, v, v', r, e) && s in v'.subs
    ensures Wf(WithSlot(a, r, e), y) && SubOk(WithSlot(a, r, e), y, v', s)
  {
    hide VolInv, FileEntry, SubEntry, EntryAt, PutEntry, NoShare, IsChain, LeadsUp, Dotted;
    VolParts(a, y, v);
    if s != r { assert SubOk(a, y, v, s); }
    WithSlotWf(a, y, r, e);
    SlotFrame(a, r, e, s);
    if v'.subs[s] == r.dir { PutKeepsDots(a.data[r.dir], r.idx, e, r.dir); }
  }

  /** Rewriting one slot keeps the content of every other file, and gives r the bytes of its chain. */
  lemma PutContent(a: Image, y: Layout, v: Volume, v': Volume, r: Ref, e: DirEntry, s: Ref)
    requires VolInv(a, y, v) && ValidRef(a, v, r) && DifferAt(v, v', r) && SlotSound(a, y, v, v', r, e)
    requires e[0] != 0 && Takeable(a, r) && s in v'.files
    ensures VolInv(WithSlot(a, r, e), y, v')
    ensures s != r ==> s in v.files && Content(WithSlot(a, r, e), y, v', s) == Content(a, y, v, s)
    ensures s == r ==>
              && (forall i :: 0 <= i < |v'.files[r]| ==> v'.files[r][i] < |a.data|)
              && SizeOf(e) <= |Flatten(a.data, v'.files[r])|
              && Content(WithSlot(a, r, e), y, v', r) == Flatten(a.data, v'.files[r])[..SizeOf(e)]
  {
    hide DirOk, FileEntry, SubOk, VolInv, SlotSound, WithSlot, IsChain, Flatten;
    VolPut(a, y, v, v', r, e);
    PutFile(a, y, v, v', r, e, s);
    ContentFits(WithSlot(a, r, e), y, v', s);
    VolParts(a, y, v);
    VolParts(WithSlot(a, r, e), y, v');
    ChainBounds(WithSlot(a, r, e).fat, v'.files[s]);
  }

  // ---------- a new file ----------

  /** The volume with slot r naming a file of the given chain. */
  function AddFile(v: Volume, r: Ref, chain: seq<nat>): Volume { v.(files := v.files[r := chain]) }

  lemma DotBytes(dir: seq<byte>, d: nat)
    requires Dotted(dir, d)
    ensures EntryAt(dir, 0)[0] == 46 && EntryAt(dir, 1)[0] == 46
    ensures AttrOf(EntryAt(dir, 0)) == DIRECTORY && AttrOf(EntryAt(dir, 1)) == DIRECTORY
  {
    assert NameOf(EntryAt(dir, 0))[0] == 46 && NameOf(EntryAt(dir, 1))[0] == 46;
  }

  /** A vacant slot is nobody's, and lies behind the dot entries. */
  lemma VacantIsUnknown(a: Image, y: Layout, v: Volume, r: Ref)
    requires VolInv(a, y, v) && ValidRef(a, v, r) && Vacant(SlotAt(a, r))
    ensures r !in v.files && r !in v.subs && Proper(r, y.root)
  {
    assert DirOk(a, y, v, r.dir);
    assert r.dir != y.root ==> EntryAt(a.data[r.dir], 0)[0] == 46 && EntryAt(a.data[r.dir], 1)[0] == 46 by {
      if r.dir != y.root { DotBytes(a.data[r.dir], r.dir); }
    }
    assert forall s :: s in v.files ==> FileOk(a, y, v, s);
    assert forall s :: s in v.subs ==> SubOk(a, y, v, s);
  }

  lemma VacantIsTakeable(a: Image, r: Ref)
    requires r.dir < |a.data| && FirstVacant(a.data[r.dir], 0) == Some(r.idx)
    ensures r.idx < Slots(a.data[r.dir]) && Vacant(SlotAt(a, r)) && Takeable(a, r)
  {}

  /** The entry written for a new file. */
  ghost predicate NewEntry(e: DirEntry, name: seq<byte>, chain: seq<nat>, size: nat) {
    && |name| == 11 && name[0] != 0 && name[0] != DELETED && chain != [] && 0 < size < 0x1_0000_0000
    && chain[0] < 0x1_0000_0000 && e == MakeEntry(name, chain[0], size, FILE)
  }

  /** Writing the entry of a chain of unowned clusters into the first vacant slot adds the file and nothing else. */
  lemma FileAdded(a: Image, y: Layout, v: Volume, r: Ref, chain: seq<nat>, name: seq<byte>, size: nat, e: DirEntry)
    requires VolInv(a, y, v) && r.dir in v.dirs && r.dir < |a.data| && FirstVacant(a.data[r.dir], 0) == Some(r.idx)
    requires IsChain(a.fat, chain) && (forall i :: 0 <= i < |chain| ==> !Owns(v, chain[i]))
    requires NewEntry(e, name, chain, size) && |chain| == Ceil(size, y.cb)
    ensures r !in v.files && r.idx < Slots(a.data[r.dir])
    ensures DifferAt(v, AddFile(v, r, chain), r) && SlotSound(a, y, v, AddFile(v, r, chain), r, e) && e[0] != 0
            && Takeable(a, r)
    ensures VolInv(WithSlot(a, r, e), y, AddFile(v, r, chain))
  {
    hide VolInv, IsChain, DirOk, FileOk, SubOk;
    VolParts(a, y, v);
    VacantIsTakeable(a, r);
    VacantIsUnknown(a, y, v, r);
    MakeEntryFields(name, chain[0], size, FILE);
    forall s | s in v.files ensures NoShare(chain, v.files[s]) && NoShare(v.files[s], chain) {
      OwnsChain(v, s);
    }
    forall i | 0 <= i < |chain| ensures chain[i] !in v.dirs { assert !Owns(v, chain[i]); }
    VolPut(a, y, v, AddFile(v, r, chain), r, e);
  }

  /** The content of the new file is the data of its chain; the others keep theirs. */
  lemma FileAddedContent(a: Image, y: Layout, v: Volume, r: Ref, chain: seq<nat>, name: seq<byte>, size: nat,
                         e: DirEntry, s: Ref)
    requires VolInv(a, y, v) && r.dir in v.dirs && r.dir < |a.data| && FirstVacant(a.data[r.dir], 0) == Some(r.idx)
    requires IsChain(a.fat, chain) && (forall i :: 0 <= i < |chain| ==> !Owns(v, chain[i]))
    requires NewEntry(e, name, chain, size) && |chain| == Ceil(size, y.cb)
    requires s in AddFile(v, r, chain).files
    ensures r.idx < Slots(a.data[r.dir]) && VolInv(WithSlot(a, r, e), y, AddFile(v, r, chain))
    ensures s != r ==> s in v.files && Content(WithSlot(a, r, e), y, AddFile(v, r, chain), s) == Content(a, y, v, s)
    ensures s == r ==>
              && (forall i :: 0 <= i < |chain| ==> chain[i] < |a.data|) && size <= |Flatten(a.data, chain)|
              && Content(WithSlot(a, r, e), y, AddFile(v, r, chain), r) == Flatten(a.data, chain)[..size]
  {
    hide VolInv, IsChain, DirOk, FileOk, SubOk, SlotSound, DifferAt, Takeable, WithSlot, Flatten;
    FileAdded(a, y, v, r, chain, name, size, e);
    MakeEntryFields(name, chain[0], size, FILE);
    VolParts(a, y, v);
    assert ValidRef(a, v, r);
    PutContent(a, y, v, AddFile(v, r, chain), r, e, s);
  }

  // ---------- a file taken out ----------

  function DropFile(v: Volume, r: Ref): Volume { v.(files := v.files - {r}) }

  function Gone(e: DirEntry): DirEntry { e[0 := DELETED] }

  /** Marking the slot of a file deleted takes the file out of the volume; its clusters are then nobody's. */
  lemma FileDropped(a: Image, y: Layout, v: Volume, r: Ref)
    requires VolInv(a, y, v) && r in v.files
    ensures ValidRef(a, v, r) && VolInv(WithSlot(a, r, Gone(SlotAt(a, r))), y, DropFile(v, r))
    ensures forall i :: 0 <= i < |v.files[r]| ==> !Owns(DropFile(v, r), v.files[r][i])
  {
    hide IsChain, DirOk, FileEntry, SubEntry, VolInv, WithSlot, NoShare, EntryAt;
    VolParts(a, y, v);
    assert FileOk(a, y, v, r);
    var v', e := DropFile(v, r), Gone(SlotAt(a, r));
    FileIsNotSub(a, y, v, r);
    assert SlotAt(a, r)[0] != 0 by { FileSlotUsed(a, y, v, r); }
    VolPut(a, y, v, v', r, e);
    forall i | 0 <= i < |v.files[r]| ensures !Owns(v', v.files[r][i]) {
      forall s | s in v'.files ensures v.files[r][i] !in v'.files[s] { NoShareAt(a, y, v, r, s, i); }
    }
  }

  lemma NoShareAt(a: Image, y: Layout, v: Volume, r: Ref, s: Ref, i: nat)
    requires VolInv(a, y, v) && r in v.files && s in v.files && r != s && i < |v.files[r]|
    ensures v.files[r][i] !in v.files[s]
  {
    assert NoShare(v.files[r], v.files[s]);
  }

  lemma FileSlotUsed(a: Image, y: Layout, v: Volume, r: Ref)
    requires VolInv(a, y, v) && r in v.files
    ensures ValidRef(a, v, r) && Proper(r, y.root) && !Vacant(SlotAt(a, r)) && AttrOf(SlotAt(a, r)) == FILE
  {
    assert FileOk(a, y, v, r);
  }

  lemma FileIsNotSub(a: Image, y: Layout, v: Volume, r: Ref)
    requires VolInv(a, y, v) && r in v.files
    ensures r !in v.subs
  {
    assert FileOk(a, y, v, r);
    assert forall s :: s in v.subs ==> SubOk(a, y, v, s);
  }

  /** File s has the same content in both volumes. */
  ghost predicate SameContent(a: Image, c: Image, y: Layout, v: Volume, v': Volume, s: Ref)
    requires VolInv(a, y, v) && s in v.files
  {
    VolInv(c, y, v') && s in v'.files && Content(c, y, v', s) == Content(a, y, v, s)
  }

  lemma FileDroppedContent(a: Image, y: Layout, v: Volume, r: Ref, s: Ref)
    requires VolInv(a, y, v) && r in v.files && s in v.files && s != r
    ensures ValidRef(a, v, r) && SameContent(a, WithSlot(a, r, Gone(SlotAt(a, r))), y, v, DropFile(v, r), s)
  {
    hide VolInv, IsChain, DirOk, FileOk, SubOk, WithSlot, Flatten;
    FileSlotUsed(a, y, v, r);
    FileDropped(a, y, v, r);
    FileIsNotSub(a, y, v, r);
    VolParts(a, y, v);
    PutContent(a, y, v, DropFile(v, r), r, Gone(SlotAt(a, r)), s);
  }

  /** The links of a chain zeroed: the effect of `FreeChain` on a well-formed chain. */
  ghost predicate Released(a: Image, b: Image, chain: seq<nat>) {
    b.data == a.data && |b.fat| == |a.fat| && forall c: nat :: c < |a.fat| ==>
        b.fat[c] == if c in chain then 0 else a.fat[c]
  }

  /** `DeleteFile` on a regular file: its links are zeroed, its slot is marked, everything else stays. */
  lemma FileRemoved(a: Image, b: Image, y: Layout, v: Volume, r: Ref)
    requires VolInv(a, y, v) && r in v.files && Released(a, b, v.files[r])
    ensures ValidRef(a, v, r) && r.idx < Slots(b.data[r.dir]) && SlotAt(b, r) == SlotAt(a, r)
    ensures var c := WithSlot(b, r, Gone(SlotAt(a, r)));
            VolInv(c, y, DropFile(v, r)) && SameContents(a, c, y, v, DropFile(v, r))
  {
    hide IsChain, DirOk, FileOk, SubOk, Flatten, VolInv, Content;
    FileSlotUsed(a, y, v, r);
    FileDropped(a, y, v, r);
    var a1, v1 := WithSlot(a, r, Gone(SlotAt(a, r))), DropFile(v, r);
    var c := WithSlot(b, r, Gone(SlotAt(a, r)));
    VolParts(a, y, v);
    VolParts(a1, y, v1);
    assert c.data == a1.data;
    assert forall x: nat :: x < 128 && Owns(v1, x) ==> c.fat[x] == a1.fat[x];
    VolSame(a1, c, y, v1);
    forall s | s in v.files && s in v1.files ensures Content(c, y, v1, s) == Content(a, y, v, s) {
      FileDroppedContent(a, y, v, r, s);
      assert Content(c, y, v1, s) == Content(a1, y, v1, s);
    }
  }

  // ---------- a file grown ----------

  /** b differs from a only in clusters of the chain of r and in free clusters: what `AppendFile` does before it
      rewrites the entry. */
  ghost predicate Regrown(a: Image, b: Image, v: Volume, r: Ref, ext: seq<nat>)
    requires r in v.files
  {
    && |b.fat| == |a.fat| && |b.data| == |a.data|
    && (forall i :: 0 <= i < |ext| ==> ext[i] < |a.fat| && a.fat[ext[i]] == 0)
    && (forall c: nat :: c < |a.fat| && c !in ext && c !in v.files[r] ==> b.fat[c] == a.fat[c])
    && (forall c: nat :: c < |a.data| && c !in ext && c !in v.files[r] ==> b.data[c] == a.data[c])
  }

  /** With the slot of r out of the way, the regrown image holds the rest of the volume unchanged. */
  lemma RegrownRest(a: Image, b: Image, y: Layout, v: Volume, r: Ref, ext: seq<nat>)
    requires VolInv(a, y, v) && r in v.files && Regrown(a, b, v, r, ext) && Wf(b, y)
    requires forall i :: 0 <= i < |ext| ==> ext[i] < 128
    ensures ValidRef(a, v, r) && ValidRef(b, v, r) && b.data[r.dir] == a.data[r.dir]
    ensures var b1 := WithSlot(b, r, Gone(SlotAt(a, r)));
            VolInv(b1, y, DropFile(v, r)) && SameContents(a, b1, y, v, DropFile(v, r))
    ensures forall i :: 0 <= i < |v.files[r]| ==> !Owns(DropFile(v, r), v.files[r][i])
    ensures forall i :: 0 <= i < |ext| ==> !Owns(DropFile(v, r), ext[i])
  {
    hide IsChain, DirOk, SubOk, Flatten, VolInv, Content, Owns;
    FileSlotUsed(a, y, v, r);
    FileDropped(a, y, v, r);
    var a1, v1 := WithSlot(a, r, Gone(SlotAt(a, r))), DropFile(v, r);
    VolParts(a, y, v);
    VolParts(a1, y, v1);
    forall i | 0 <= i < |ext| ensures !Owns(v, ext[i]) && !Owns(v1, ext[i]) {
      FreeIsUnowned(a, y, v, ext[i]);
      FreeIsUnowned(a1, y, v1, ext[i]);
    }
    assert FileOk(a, y, v, r);
    DirOwned(v, r.dir);
    DirOwned(v1, r.dir);
    assert r.dir !in ext && r.dir !in v.files[r];
    RestLive(a, b, v, r, ext);
    var b1 := WithSlot(b, r, Gone(SlotAt(a, r)));
    WithSlotWf(b, y, r, Gone(SlotAt(a, r)));
    VolSame(a1, b1, y, v1);
    forall s | s in v.files && s in v1.files ensures Content(b1, y, v1, s) == Content(a, y, v, s) {
      FileDroppedContent(a, y, v, r, s);
      assert Content(b1, y, v1, s) == Content(a1, y, v1, s);
    }
  }

  lemma DirOwned(v: Volume, d: nat)
    requires d in v.dirs
    ensures Owns(v, d)
  {}

  lemma RestLive(a: Image, b: Image, v: Volume, r: Ref, ext: seq<nat>)
    requires r in v.files && Regrown(a, b, v, r, ext) && ValidRef(a, v, r) && ValidRef(b, v, r)
             && b.data[r.dir] == a.data[r.dir]
    requires |a.fat| >= 128 && |a.data| == 128
    requires forall i :: 0 <= i < |v.files[r]| ==> !Owns(DropFile(v, r), v.files[r][i])
    requires forall i :: 0 <= i < |ext| ==> !Owns(DropFile(v, r), ext[i])
    ensures SameLive(WithSlot(a, r, Gone(SlotAt(a, r))), WithSlot(b, r, Gone(SlotAt(a, r))), DropFile(v, r))
  {
    hide Owns;
    var v1 := DropFile(v, r);
    assert forall c: nat :: Owns(v1, c) ==> c !in ext && c !in v.files[r];
  }

  lemma PutTwice(dir: seq<byte>, i: nat, e: DirEntry, f: DirEntry)
    requires i < Slots(dir)
    ensures PutEntry(PutEntry(dir, i, e), i, f) == PutEntry(dir, i, f)
  {}

  /** The chain of r was extended by ext, to what the new size needs. */
  ghost predicate Extending(a: Image, b: Image, y: Layout, v: Volume, r: Ref, ext: seq<nat>, size: nat) {
    && r in v.files && Regrown(a, b, v, r, ext) && Wf(b, y)
    && (forall i :: 0 <= i < |ext| ==> ext[i] < 128) && IsChain(b.fat, v.files[r] + ext)
    && 0 < size < 0x1_0000_0000 && |v.files[r] + ext| == Ceil(size, y.cb)
  }

  /** The other files have their old content, and r the bytes of its chain on b. */
  ghost predicate Regrew(a: Image, b: Image, c: Image, y: Layout, v: Volume, v': Volume, r: Ref, size: nat)
    requires VolInv(a, y, v)
  {
    && VolInv(c, y, v') && r in v'.files && (forall s :: s in v.files && s != r ==> SameContent(a, c, y, v, v', s))
    && (forall i :: 0 <= i < |v'.files[r]| ==> v'.files[r][i] < |b.data|)
    && size <= |Flatten(b.data, v'.files[r])| && Content(c, y, v', r) == Flatten(b.data, v'.files[r])[..size]
  }

  /** `AppendFile`: the grown chain and the new size in the entry keep the invariant, the other files keep their
      content, and r has the bytes of its grown chain. */
  lemma FileGrown(a: Image, b: Image, y: Layout, v: Volume, r: Ref, ext: seq<nat>, size: nat)
    requires VolInv(a, y, v) && Extending(a, b, y, v, r, ext, size)
    ensures ValidRef(a, v, r) && ValidRef(b, v, r)
    ensures Regrew(a, b, WithSlot(b, r, WithSize(SlotAt(a, r), size)), y, v, AddFile(v, r, v.files[r] + ext), r, size)
  {
    hide IsChain, DirOk, SubOk, FileEntry, Flatten, VolInv, Content, Owns, Regrown, Ceil, WithSize, EntryAt, PutEntry;
    FileSlotUsed(a, y, v, r);
    RegrownRest(a, b, y, v, r, ext);
    var e, chain := WithSize(SlotAt(a, r), size), v.files[r] + ext;
    var b1, v1, v' := WithSlot(b, r, Gone(SlotAt(a, r))), DropFile(v, r), AddFile(v, r, chain);
    var c := WithSlot(b, r, e);
    PutTwice(b.data[r.dir], r.idx, Gone(SlotAt(a, r)), e);
    assert c == WithSlot(b1, r, e);
    VolParts(a, y, v);
    VolParts(b1, y, v1);
    assert v.files[r] != [] by { assert FileOk(a, y, v, r); ChainBounds(a.fat, v.files[r]); }
    assert SlotAt(b1, r)[0] == DELETED by { SlotFrame(b, r, Gone(SlotAt(a, r)), r); }
    GrownSound(a, b1, y, v, v1, r, chain, e, size);
    VolPut(b1, y, v1, v', r, e);
    forall s | s in v.files && s != r ensures Content(c, y, v', s) == Content(a, y, v, s) {
      PutContent(b1, y, v1, v', r, e, s);
      assert Content(b1, y, v1, s) == Content(a, y, v, s);
    }
    PutContent(b1, y, v1, v', r, e, r);
    WithSizeFields(SlotAt(a, r), size);
    forall i | 0 <= i < |chain| ensures chain[i] != r.dir { assert !Owns(v1, chain[i]); DirOwned(v1, r.dir); }
    FlattenSame(b1.data, b.data, chain);
  }

  lemma UnownedApart(v: Volume, s: Ref, chain: seq<nat>)
    requires s in v.files && forall i :: 0 <= i < |chain| ==> !Owns(v, chain[i])
    ensures NoShare(chain, v.files[s]) && NoShare(v.files[s], chain)
  {
    OwnsChain(v, s);
  }

  /** The entry of a file with a new size, for the longer chain. */
  lemma GrownEntry(e: DirEntry, chain: seq<nat>, chain': seq<nat>, size: nat, cb: nat)
    requires cb > 0 && FileEntry(e, chain, cb) && chain' != [] && chain'[0] == chain[0]
    requires 0 < size < 0x1_0000_0000 && |chain'| == Ceil(size, cb)
    ensures FileEntry(WithSize(e, size), chain', cb) && WithSize(e, size)[0] != 0
  {
    hide WithSize, Ceil;
    WithSizeFields(e, size);
  }

  lemma GrownSound(a: Image, b1: Image, y: Layout, v: Volume, v1: Volume, r: Ref, chain: seq<nat>, e: DirEntry,
                   size: nat)
    requires VolInv(a, y, v) && VolInv(b1, y, v1) && r in v.files && v1 == DropFile(v, r)
    requires IsChain(b1.fat, chain) && chain != [] && (forall i :: 0 <= i < |chain| ==> !Owns(v1, chain[i]))
             && chain[0] == v.files[r][0]
    requires 0 < size < 0x1_0000_0000 && |chain| == Ceil(size, y.cb)
    requires ValidRef(a, v, r) && e == WithSize(SlotAt(a, r), size)
    requires ValidRef(b1, v1, r) && SlotAt(b1, r)[0] == DELETED
    ensures DifferAt(v1, AddFile(v, r, chain), r) && SlotSound(b1, y, v1, AddFile(v, r, chain), r, e)
    ensures e[0] != 0 && Takeable(b1, r)
  {
    hide IsChain, DirOk, SubOk, VolInv, WithSize, Owns, EntryAt, Ceil, NoShare, FileEntry, Vacant;
    VolParts(a, y, v);
    VolParts(b1, y, v1);
    assert FileOk(a, y, v, r);
    GrownEntry(SlotAt(a, r), v.files[r], chain, size, y.cb);
    FileIsNotSub(a, y, v, r);
    forall s | s in v1.files ensures NoShare(chain, v1.files[s]) && NoShare(v1.files[s], chain) {
      UnownedApart(v1, s, chain);
    }
    forall i | 0 <= i < |chain| ensures chain[i] !in v1.dirs { if chain[i] in v1.dirs { DirOwned(v1, chain[i]); } }
  }

  // ---------- directories ----------

  function AddDir(v: Volume, d: nat): Volume { v.(dirs := v.dirs + {d}) }
  function AddSub(v: Volume, r: Ref, d: nat): Volume { v.(subs := v.subs[r := d]) }

  /** The cluster of a fresh directory: the two dot entries and nothing else. */
  ghost predicate FreshDir(dir: seq<byte>, d: nat) {
    Dotted(dir, d) && forall i: nat :: 2 <= i < Slots(dir) ==> EntryAt(dir, i)[0] == 0
  }

  /** A free cluster turned into an empty directory joins the volume, whether or not an entry will point to it. */
  lemma DirAdded(a: Image, b: Image, y: Layout, v: Volume, d: nat)
    requires VolInv(a, y, v) && Wf(b, y) && Extended(a, b, [], [d]) && FreshDir(b.data[d], d)
    ensures d !in v.dirs && d != y.root && VolInv(b, y, AddDir(v, d))
    ensures forall r :: r in v.files ==> Content(b, y, AddDir(v, d), r) == Content(a, y, v, r)
    ensures forall r :: r in v.subs ==> v.subs[r] != d
  {
    hide IsChain, FileOk, DirOk, Flatten, Owns, FreshDir, Content;
    ExtendedSame(a, b, y, v, [d]);
    assert !Owns(v, [d][0]);
    if d in v.dirs { DirOwned(v, d); }
    VolSame(a, b, y, v);
    var v' := AddDir(v, d);
    FreshDirOk(b, y, v', d);
    forall c | c in v.dirs ensures DirOk(b, y, v', c) { DirKeptIn(b, y, v, v', c); }
    forall r | r in v.files ensures FileOk(b, y, v', r) { FileBeside(b, y, v, d, r); }
    forall r | r in v.subs ensures SubOk(b, y, v', r) { assert SubOk(b, y, v, r); }
    forall r | r in v.files ensures Content(b, y, v', r) == Content(a, y, v, r) {
      SameContentIn(b, y, v, v', r);
    }
  }

  lemma SameContentIn(b: Image, y: Layout, v: Volume, v': Volume, r: Ref)
    requires VolInv(b, y, v) && VolInv(b, y, v') && r in v.files && r in v'.files && v'.files[r] == v.files[r]
    ensures Content(b, y, v', r) == Content(b, y, v, r)
  {}

  lemma DirKeptIn(b: Image, y: Layout, v: Volume, v': Volume, c: nat)
    requires Wf(b, y) && DirOk(b, y, v, c) && v'.files == v.files && v'.subs == v.subs
    ensures DirOk(b, y, v', c)
  {}

  lemma FileBeside(b: Image, y: Layout, v: Volume, d: nat, r: Ref)
    requires VolInv(b, y, v) && !Owns(v, d) && r in v.files
    ensures FileOk(b, y, AddDir(v, d), r)
  {
    hide IsChain;
    assert FileOk(b, y, v, r);
    OwnsChain(v, r);
  }

  lemma FreshDirOk(b: Image, y: Layout, v: Volume, d: nat)
    requires Wf(b, y) && 2 <= d < 128 && b.fat[d] == EOC && FreshDir(b.data[d], d) && d != y.root
    ensures DirOk(b, y, v, d)
  {
    DotBytes(b.data[d], d);
  }

  /** An entry for directory d in the first vacant slot of its parent. */
  lemma SubAdded(a: Image, y: Layout, v: Volume, r: Ref, d: nat, name: seq<byte>)
    requires VolInv(a, y, v) && r.dir in v.dirs && r.dir < |a.data| && FirstVacant(a.data[r.dir], 0) == Some(r.idx)
    requires d in v.dirs && d != y.root && (forall s :: s in v.subs ==> v.subs[s] != d) && d < 128
    requires |name| == 11 && name[0] != 0 && name[0] != DELETED && LeadsUp(a.data[d], r.dir, y.root)
    ensures r.idx < Slots(a.data[r.dir]) && r !in v.files && r !in v.subs
    ensures var c := WithSlot(a, r, MakeEntry(name, d, 0, DIRECTORY));
            && VolInv(c, y, AddSub(v, r, d))
            && (forall s :: s in v.files ==> Content(c, y, AddSub(v, r, d), s) == Content(a, y, v, s))
  {
    hide VolInv, IsChain, DirOk, FileOk, Content, Flatten;
    VolParts(a, y, v);
    VacantIsTakeable(a, r);
    VacantIsUnknown(a, y, v, r);
    MakeEntryFields(name, d, 0, DIRECTORY);
    var e, v' := MakeEntry(name, d, 0, DIRECTORY), AddSub(v, r, d);
    VolPut(a, y, v, v', r, e);
    forall s | s in v.files ensures Content(WithSlot(a, r, e), y, v', s) == Content(a, y, v, s) {
      PutContent(a, y, v, v', r, e, s);
    }
  }

  /** The volume without directory d, its slots, and the slot r that led to it. */
  function DropDir(v: Volume, r: Ref, d: nat): Volume {
    Volume(v.dirs - {d}, map s | s in v.files && s.dir != d :: v.files[s], map s | s in v.subs && s != r
           && s.dir != d :: v.subs[s])
  }

  function DropSub(v: Volume, r: Ref): Volume { v.(subs := v.subs - {r}) }

  lemma SubDropped(a: Image, y: Layout, v: Volume, r: Ref)
    requires VolInv(a, y, v) && r in v.subs
    ensures ValidRef(a, v, r) && VolInv(WithSlot(a, r, Gone(SlotAt(a, r))), y, DropSub(v, r))
    ensures forall s :: s in v.files ==>
              Content(WithSlot(a, r, Gone(SlotAt(a, r))), y, DropSub(v, r), s) == Content(a, y, v, s)
    ensures r !in v.files
  {
    hide IsChain, DirOk, Flatten, Content, VolInv;
    VolParts(a, y, v);
    assert SubOk(a, y, v, r);
    assert forall s :: s in v.files ==> FileOk(a, y, v, s);
    var v', e := DropSub(v, r), Gone(SlotAt(a, r));
    VolPut(a, y, v, v', r, e);
    forall s | s in v.files ensures Content(WithSlot(a, r, e), y, v', s) == Content(a, y, v, s) {
      PutContent(a, y, v, v', r, e, s);
    }
  }

  /** `DeleteFile` on a directory: its cluster is freed and its slot marked. What it held is no longer reachable;
      every file outside it keeps its content. */
  lemma DirRemoved(a: Image, b: Image, y: Layout, v: Volume, r: Ref)
    requires VolInv(a, y, v) && r in v.subs && Released(a, b, [v.subs[r]])
    ensures ValidRef(a, v, r) && r.idx < Slots(b.data[r.dir]) && SlotAt(b, r) == SlotAt(a, r)
    ensures var c, v' := WithSlot(b, r, Gone(SlotAt(a, r))), DropDir(v, r, v.subs[r]);
            VolInv(c, y, v') && SameContents(a, c, y, v, v')
  {
    hide IsChain, DirOk, FileOk, SubOk, Flatten, Content, VolInv, Gone, EntryAt, PutEntry, SubEntry, NoShare;
    SubDropped(a, y, v, r);
    VolParts(a, y, v);
    SubFacts(a, y, v, r);
    var d := v.subs[r];
    var e, v1, v' := Gone(SlotAt(a, r)), DropSub(v, r), DropDir(v, r, d);
    var a1, c := WithSlot(a, r, e), WithSlot(b, r, e);
    assert forall s :: s in v1.subs ==> v1.subs[s] != d by { SubsInjective(a, y, v, r); }
    DirForgotten(a1, c, y, v1, d, v');
    forall s | s in v.files && s in v'.files ensures Content(c, y, v', s) == Content(a, y, v, s) {
      DirForgottenContent(a1, c, y, v1, d, v', s);
    }
  }

  lemma SubFacts(a: Image, y: Layout, v: Volume, r: Ref)
    requires VolInv(a, y, v) && r in v.subs
    ensures ValidRef(a, v, r) && v.subs[r] in v.dirs && v.subs[r] != y.root && v.subs[r] < |a.data|
  {
    assert SubOk(a, y, v, r);
  }

  lemma SubsInjective(a: Image, y: Layout, v: Volume, r: Ref)
    requires VolInv(a, y, v) && r in v.subs
    ensures forall s :: s in v.subs && s != r ==> v.subs[s] != v.subs[r]
  {}

  /** v' is v without directory d and the slots inside it. */
  ghost predicate Without(v: Volume, d: nat, v': Volume) {
    && v'.dirs == v.dirs - {d}
    && (forall s :: s in v'.files <==> s in v.files && s.dir != d)
       && (forall s :: s in v'.files ==> v'.files[s] == v.files[s])
    && (forall s :: s in v'.subs <==> s in v.subs && s.dir != d)
       && (forall s :: s in v'.subs ==> v'.subs[s] == v.subs[s])
  }

  lemma DirForgottenParts(a: Image, b: Image, y: Layout, v: Volume, d: nat, v': Volume, s: Ref)
    requires VolInv(a, y, v) && d in v.dirs && Without(v, d, v') && s in v'.files
    requires Wf(b, y) && |b.fat| == |a.fat| && b.data == a.data && forall c: nat :: c < |a.fat| && c != d ==>
               b.fat[c] == a.fat[c]
    ensures FileOk(b, y, v', s) && Flatten(b.data, v'.files[s]) == Flatten(a.data, v.files[s])
            && SlotAt(b, s) == SlotAt(a, s)
  {
    hide IsChain, DirOk, SubOk, Flatten, VolInv;
    VolParts(a, y, v);
    assert FileOk(a, y, v, s);
    ChainBounds(a.fat, v.files[s]);
    FileKept(a, b, y, v, v', s);
  }

  lemma DirForgotten(a: Image, b: Image, y: Layout, v: Volume, d: nat, v': Volume)
    requires VolInv(a, y, v) && d in v.dirs && d != y.root && Without(v, d, v')
             && (forall s :: s in v.subs ==> v.subs[s] != d)
    requires Wf(b, y) && |b.fat| == |a.fat| && b.data == a.data && forall c: nat :: c < |a.fat| && c != d ==>
               b.fat[c] == a.fat[c]
    ensures VolInv(b, y, v')
  {
    hide IsChain, DirOk, FileOk, SubOk, Flatten, NoShare;
    forall c | c in v'.dirs ensures DirOk(b, y, v', c) {
      assert DirOk(a, y, v, c);
      DirStays(a, b, y, v, d, v', c);
    }
    forall s | s in v'.files ensures FileOk(b, y, v', s) { DirForgottenParts(a, b, y, v, d, v', s); }
    forall s | s in v'.subs ensures SubOk(b, y, v', s) {
      assert SubOk(a, y, v, s);
      SubForgotten(a, b, y, v, d, v', s);
    }
  }

  lemma SubForgotten(a: Image, b: Image, y: Layout, v: Volume, d: nat, v': Volume, s: Ref)
    requires Wf(a, y) && Wf(b, y) && b.data == a.data && Without(v, d, v') && s in v'.subs && s in v.subs
    requires SubOk(a, y, v, s) && v.subs[s] != d
    ensures SubOk(b, y, v', s)
  {
    hide LeadsUp, SubEntry;
  }

  lemma DirStays(a: Image, b: Image, y: Layout, v: Volume, d: nat, v': Volume, c: nat)
    requires Wf(a, y) && Wf(b, y) && DirOk(a, y, v, c) && c != d && Without(v, d, v')
    requires |b.fat| == |a.fat| && b.data == a.data && forall x: nat :: x < |a.fat| && x != d ==> b.fat[x] == a.fat[x]
    ensures DirOk(b, y, v', c)
  {
    DirKept(a, b, y, v, v', c);
  }

  lemma DirForgottenContent(a: Image, b: Image, y: Layout, v: Volume, d: nat, v': Volume, s: Ref)
    requires VolInv(a, y, v) && VolInv(b, y, v') && d in v.dirs && Without(v, d, v') && s in v'.files
    requires |b.fat| == |a.fat| && b.data == a.data && forall c: nat :: c < |a.fat| && c != d ==> b.fat[c] == a.fat[c]
    ensures Content(b, y, v', s) == Content(a, y, v, s)
  {
    hide IsChain, DirOk, FileOk, Flatten;
    DirForgottenParts(a, b, y, v, d, v', s);
  }
}

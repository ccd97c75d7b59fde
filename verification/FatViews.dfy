/** What a caller sees of a volume: for each directory and name, the file or directory found there. */
module FatViews {
  import opened Prelude
  import opened FatDisk
  import opened FatEntries
  import opened FatChains
  import opened FatVolume
  import opened FatUpdates

  datatype Node = File(content: seq<byte>) | Dir(cluster: nat)

  /** The node a lookup of the directory form `key` in directory d leads to. */
  ghost function Lookup(a: Image, y: Layout, v: Volume, d: nat, key: seq<byte>): Option<Node>
    requires VolInv(a, y, v) && d in v.dirs
  {
    VolParts(a, y, v);
    var f := Find(a.data[d], key, 0);
    if f.None? then None
    else if Ref(d, f.value) in v.files then Some(File(Content(a, y, v, Ref(d, f.value))))
    else if Ref(d, f.value) in v.subs then Some(Dir(v.subs[Ref(d, f.value)]))
    else None
  }

  /** At most one live entry of the directory has the name. */
  ghost predicate Once(dir: seq<byte>, key: seq<byte>) {
    forall i: nat, j: nat :: i < j < Slots(dir) && Matches(EntryAt(dir, i), key) ==> !Matches(EntryAt(dir, j), key)
  }

  /** An entry of that name in an earlier slot hides the one in slot i. */
  ghost predicate Hidden(dir: seq<byte>, key: seq<byte>, i: nat) {
    exists j: nat :: j < i && j < Slots(dir) && Matches(EntryAt(dir, j), key)
  }

  /** What rewriting slot i does to lookups. */
  lemma FindAfterPut(dir: seq<byte>, i: nat, e: DirEntry, key: seq<byte>)
    requires i < Slots(dir) && TailUnused(dir) && TailUnused(PutEntry(dir, i, e))
    ensures (Matches(EntryAt(dir, i), key) <==> Matches(e, key)) ==>
              Find(PutEntry(dir, i, e), key, 0) == Find(dir, key, 0)
    ensures Matches(e, key) && !Hidden(dir, key, i) ==> Find(PutEntry(dir, i, e), key, 0) == Some(i)
    ensures Matches(e, key) && Hidden(dir, key, i) ==> Find(PutEntry(dir, i, e), key, 0) == Find(dir, key, 0)
    ensures Once(dir, key) && Matches(EntryAt(dir, i), key) && !Matches(e, key) ==>
              Find(PutEntry(dir, i, e), key, 0) == None
  {
    hide Find, TailUnused, PutEntry, Matches;
    var dir' := PutEntry(dir, i, e);
    assert |dir'| == |dir|;
    forall j: nat | j < Slots(dir) ensures EntryAt(dir', j) == if j == i then e else EntryAt(dir, j) {
      EntryAfterPut(dir, i, e, j);
    }
    FindIsFirst(dir, key, 0);
    FindIsFirst(dir', key, 0);
  }

  /** In the directories `dirs`, every name that was there at most once still is, the names in `but` aside. */
  ghost predicate OnceKept(a: Image, c: Image, dirs: set<nat>, but: set<(nat, seq<byte>)>) {
    forall d, k :: d in dirs && d < |a.data| && d < |c.data| && (d, k) !in but && Once(a.data[d], k) ==>
      Once(c.data[d], k)
  }

  predicate Plain(k: seq<byte>) { k != [] && k[0] != 46 }

  /** Rewriting slot i keeps a name unique if no other slot has it, or the slot had it already. */
  lemma OnceAfterPut(dir: seq<byte>, i: nat, e: DirEntry, key: seq<byte>)
    requires i < Slots(dir) && TailUnused(dir) && Once(dir, key)
    requires Matches(e, key) ==> Matches(EntryAt(dir, i), key) || Find(dir, key, 0).None?
    ensures Once(PutEntry(dir, i, e), key)
  {
    hide Find, TailUnused, PutEntry, Matches;
    var dir' := PutEntry(dir, i, e);
    assert |dir'| == |dir|;
    forall j: nat | j < Slots(dir) ensures EntryAt(dir', j) == if j == i then e else EntryAt(dir, j) {
      EntryAfterPut(dir, i, e, j);
    }
    FindIsFirst(dir, key, 0);
  }

  lemma OnceAfterSlot(a: Image, c: Image, y: Layout, v: Volume, v': Volume, dirs: set<nat>, r: Ref, e: DirEntry,
                      but: set<(nat, seq<byte>)>)
    requires OneSlot(a, c, y, v, v', dirs, r, e)
    requires forall k :: Matches(e, k) && (r.dir, k) !in but ==>
               Matches(SlotAt(a, r), k) || Find(a.data[r.dir], k, 0).None?
    ensures OnceKept(a, c, dirs, but)
  {
    hide VolInv, Content, Find, Kept, TailUnused, Matches, Once;
    DirTails(a, y, v, r.dir);
    forall d, k | d in dirs && d < |a.data| && d < |c.data| && (d, k) !in but && Once(a.data[d], k)
      ensures Once(c.data[d], k)
    {
      if d == r.dir { OnceAfterPut(a.data[d], r.idx, e, k); }
    }
  }

  lemma OnceSame(a: Image, c: Image, dirs: set<nat>)
    requires |c.data| == |a.data| && forall d: nat :: d in dirs && d < |a.data| ==> c.data[d] == a.data[d]
    ensures OnceKept(a, c, dirs, {})
  {}

  /** The volume seen through every name of every directory in `dirs` but one is the same. */
  ghost predicate SameBut(a: Image, c: Image, y: Layout, v: Volume, v': Volume, dirs: set<nat>, d: nat, key: seq<byte>)
    requires VolInv(a, y, v) && VolInv(c, y, v') && dirs <= v.dirs && dirs <= v'.dirs
  {
    forall e, k :: e in dirs && !(e == d && k == key) ==> Lookup(c, y, v', e, k) == Lookup(a, y, v, e, k)
  }

  /** A lookup that stops at the same slot, with the slot meaning the same, has the same result. */
  lemma LookupKept(a: Image, c: Image, y: Layout, v: Volume, v': Volume, d: nat, key: seq<byte>)
    requires VolInv(a, y, v) && VolInv(c, y, v') && d in v.dirs && d in v'.dirs && d < 128
    requires |a.data| == 128 && |c.data| == 128 && Find(c.data[d], key, 0) == Find(a.data[d], key, 0)
    requires Find(a.data[d], key, 0).Some? ==> Kept(a, c, y, v, v', Ref(d, Find(a.data[d], key, 0).value))
    ensures Lookup(c, y, v', d, key) == Lookup(a, y, v, d, key)
  {
    hide VolInv, Content, Find;
  }

  /** Slot r means the same in both volumes. */
  ghost predicate Kept(a: Image, c: Image, y: Layout, v: Volume, v': Volume, r: Ref)
    requires VolInv(a, y, v) && VolInv(c, y, v')
  {
    && (r in v.files <==> r in v'.files) && (r in v.files ==> Content(c, y, v', r) == Content(a, y, v, r))
    && (r in v.subs <==> r in v'.subs) && (r in v.subs ==> v'.subs[r] == v.subs[r])
  }

  /** Only slot r of the directories `dirs` was rewritten, to e; every other slot in them means what it meant. */
  ghost predicate OneSlot(a: Image, c: Image, y: Layout, v: Volume, v': Volume, dirs: set<nat>, r: Ref, e: DirEntry) {
    && VolInv(a, y, v) && VolInv(c, y, v') && dirs <= v.dirs && dirs <= v'.dirs && ValidRef(a, v, r) && r.dir in dirs
    && |c.data| == |a.data|
    && (forall d: nat :: d in dirs && d != r.dir && d < |a.data| ==> c.data[d] == a.data[d])
    && c.data[r.dir] == PutEntry(a.data[r.dir], r.idx, e)
    && (forall s: Ref :: s.dir in dirs && s != r ==> Kept(a, c, y, v, v', s))
  }

  /** What a lookup finds in a live directory is the first slot whose bytes hold an entry of the name. */
  lemma NamesFound(a: Image, y: Layout, v: Volume, d: nat, key: seq<byte>)
    requires VolInv(a, y, v) && d in v.dirs
    ensures d < |a.data|
    ensures Find(a.data[d], key, 0).None? ==> forall j: nat :: !NamedAt(a.data[d], key, j)
    ensures Find(a.data[d], key, 0).Some? ==> NamedAt(a.data[d], key, Find(a.data[d], key, 0).value)
    ensures Find(a.data[d], key, 0).Some? ==>
              forall j: nat :: j < Find(a.data[d], key, 0).value ==> !NamedAt(a.data[d], key, j)
  {
    hide VolInv, NamedAt, Find;
    DirTails(a, y, v, d);
    if Find(a.data[d], key, 0).Some? { FindIff(a.data[d], key, Find(a.data[d], key, 0).value); }
    forall j: nat { FindIff(a.data[d], key, j); }
  }

  lemma DirTails(a: Image, y: Layout, v: Volume, d: nat)
    requires VolInv(a, y, v) && d in v.dirs
    ensures 2 <= d < 128 && |a.data| == 128 && TailUnused(a.data[d]) && |a.data[d]| == y.cb && a.fat[d] == EOC
  {
    assert DirOk(a, y, v, d);
  }

  /** The lookups after one slot was rewritten: only names that the old or the new entry has are affected. */
  lemma OneSlotLookup(a: Image, c: Image, y: Layout, v: Volume, v': Volume, dirs: set<nat>, r: Ref, e: DirEntry,
                      d: nat, key: seq<byte>)
    requires OneSlot(a, c, y, v, v', dirs, r, e) && d in dirs
    requires d == r.dir ==> !Matches(SlotAt(a, r), key) && (!Matches(e, key) || Hidden(a.data[r.dir], key, r.idx))
    ensures Lookup(c, y, v', d, key) == Lookup(a, y, v, d, key)
  {
    hide VolInv, Content, Find, Lookup, Kept, TailUnused, Matches;
    DirTails(a, y, v, d);
    DirTails(c, y, v', d);
    if d == r.dir {
      FindAfterPut(a.data[d], r.idx, e, key);
    }
    var f := Find(a.data[d], key, 0);
    if f.Some? {
      assert Matches(EntryAt(a.data[d], f.value), key);
    }
    LookupKept(a, c, y, v, v', d, key);
  }

  /** The name of the new entry leads to the new entry, unless it is hidden. */
  lemma OneSlotNew(a: Image, c: Image, y: Layout, v: Volume, v': Volume, dirs: set<nat>, r: Ref, e: DirEntry,
                   key: seq<byte>)
    requires OneSlot(a, c, y, v, v', dirs, r, e) && Matches(e, key) && !Hidden(a.data[r.dir], key, r.idx)
    ensures r in v'.files ==> Lookup(c, y, v', r.dir, key) == Some(File(Content(c, y, v', r)))
    ensures r !in v'.files && r in v'.subs ==> Lookup(c, y, v', r.dir, key) == Some(Dir(v'.subs[r]))
    ensures Find(c.data[r.dir], key, 0) == Some(r.idx)
  {
    hide VolInv, Content, Find, Kept, TailUnused, Matches;
    DirTails(a, y, v, r.dir);
    DirTails(c, y, v', r.dir);
    FindAfterPut(a.data[r.dir], r.idx, e, key);
  }

  /** The only entry of a name gone, the name leads nowhere. */
  lemma OneSlotGone(a: Image, c: Image, y: Layout, v: Volume, v': Volume, dirs: set<nat>, r: Ref, e: DirEntry,
                    key: seq<byte>)
    requires OneSlot(a, c, y, v, v', dirs, r, e) && Matches(SlotAt(a, r), key) && !Matches(e, key)
             && Once(a.data[r.dir], key)
    ensures Lookup(c, y, v', r.dir, key) == None
  {
    hide VolInv, Content, Find, Kept, TailUnused, Matches;
    DirTails(a, y, v, r.dir);
    DirTails(c, y, v', r.dir);
    FindAfterPut(a.data[r.dir], r.idx, e, key);
  }

  // ---------- what the operations do to the view ----------

  /** A name in directory form that makes an entry live. */
  predicate LiveName(name: seq<byte>) { |name| == 11 && name[0] != 0 && name[0] != DELETED }

  /** Every name in the directories `dirs` leads to what it led to. */
  ghost predicate SameView(a: Image, c: Image, y: Layout, v: Volume, v': Volume, dirs: set<nat>)
    requires VolInv(a, y, v) && VolInv(c, y, v') && dirs <= v.dirs && dirs <= v'.dirs
  {
    forall e, k :: e in dirs ==> Lookup(c, y, v', e, k) == Lookup(a, y, v, e, k)
  }

  /** The table differs only at the clusters of `ext`, which were free. */
  ghost predicate OnlyTook(fa: seq<nat>, fb: seq<nat>, ext: seq<nat>) {
    |fb| == |fa| && forall c: nat :: c < |fa| ==> if c in ext then fa[c] == 0 else fb[c] == fa[c]
  }

  lemma ExtendedTook(a: Image, b: Image, ext: seq<nat>)
    requires Extended(a, b, [], ext)
    ensures OnlyTook(a.fat, b.fat, ext)
  {}

  /** The links the driver writes stay among the clusters it allocates. */
  lemma ExtendedClosed(a: Image, b: Image, base: seq<nat>, ext: seq<nat>)
    requires Extended(a, b, base, ext) && Closed(a.fat, 128)
    ensures Closed(b.fat, 128)
  {
    forall c: nat | c < 128 && Cluster(Next(b.fat, c)) ensures Next(b.fat, c) < 128 {
      if c in ext {
        var i :| 0 <= i < |ext| && ext[i] == c;
        if i < |ext| - 1 { assert b.fat[ext[i + 1 - 1]] == ext[i + 1]; }
      } else if Hook(base, ext, c) {
        assert b.fat[c] == ext[0];
      } else {
        assert b.fat[c] == a.fat[c] && Next(b.fat, c) == Next(a.fat, c);
      }
    }
  }

  lemma ReleasedClosed(a: Image, b: Image, chain: seq<nat>)
    requires Released(a, b, chain) && Closed(a.fat, 128)
    ensures Closed(b.fat, 128)
  {
    forall c: nat | c < 128 && Cluster(Next(b.fat, c)) ensures Next(b.fat, c) < 128 {
      assert c !in chain && Next(b.fat, c) == Next(a.fat, c);
    }
  }

  /** Taking clusters for data that no entry refers to changes nothing a caller sees. */
  lemma UnseenExtension(a: Image, b: Image, y: Layout, v: Volume, ext: seq<nat>)
    requires VolInv(a, y, v) && Wf(b, y) && Extended(a, b, [], ext)
    ensures VolInv(b, y, v) && SameView(a, b, y, v, v, v.dirs) && OnceKept(a, b, v.dirs, {})
    ensures forall d :: d in v.dirs ==> 2 <= d < 128 && b.data[d] == a.data[d]
    ensures forall r :: r in v.files ==> Content(b, y, v, r) == Content(a, y, v, r)
    ensures forall i :: 0 <= i < |ext| ==> !Owns(v, ext[i])
  {
    hide VolInv, Content, Find, TailUnused, Extended, IsChain, SameLive, Owns, DirOk, Lookup;
    ExtendedSame(a, b, y, v, ext);
    VolSame(a, b, y, v);
    forall d | d in v.dirs ensures 2 <= d < 128 && |a.data| == 128 && |b.data| == 128 && b.data[d] == a.data[d] {
      DirTails(a, y, v, d);
      DirSame(a, b, y, v, d);
    }
    OnceSame(a, b, v.dirs);
    forall d, k | d in v.dirs ensures Lookup(b, y, v, d, k) == Lookup(a, y, v, d, k) {
      LookupKept(a, b, y, v, v, d, k);
    }
  }

  /** A new file: its name leads to its data unless an earlier slot hides it; nothing else changes. */
  lemma FileSeen(a: Image, b: Image, y: Layout, v: Volume, r: Ref, ext: seq<nat>, name: seq<byte>, data: seq<byte>)
    requires VolInv(a, y, v) && Wf(b, y) && Extended(a, b, [], ext) && Stored(b, ext, y.cb, data)
    requires data != [] && |data| < 0x1_0000_0000 && |ext| == Ceil(|data|, y.cb) && LiveName(name) && ext != []
             && ext[0] < 128
    requires r.dir in v.dirs && r.dir < 128 && FirstVacant(a.data[r.dir], 0) == Some(r.idx)
    ensures b.data[r.dir] == a.data[r.dir] && r !in v.files
    ensures var c, v' := WithSlot(b, r, MakeEntry(name, ext[0], |data|, FILE)), AddFile(v, r, ext);
            && VolInv(c, y, v') && SameBut(a, c, y, v, v', v.dirs, r.dir, name)
            && Lookup(c, y, v', r.dir, name) ==
               (if Hidden(a.data[r.dir], name, r.idx) then Lookup(a, y, v, r.dir, name) else Some(File(data)))
            && (!Hidden(a.data[r.dir], name, r.idx) ==> Find(c.data[r.dir], name, 0) == Some(r.idx))
            && OnceKept(a, c, v.dirs, {(r.dir, name)})
               && (Find(a.data[r.dir], name, 0).None? ==> Once(c.data[r.dir], name))
            && SlotIs(c, r, MakeEntry(name, ext[0], |data|, 0x20))
            && (FirstVacant(c.data[r.dir], 0).Some? ==> FirstVacant(c.data[r.dir], 0).value > r.idx)
  {
    hide Once, Ceil, Hidden, FirstVacant, VolInv, Content, Find, TailUnused, Extended, IsChain, SameLive, Owns, DirOk,
         Lookup, Stored, Matches, MakeEntry, Flatten, NewEntry, WithSlot, DifferAt, SlotSound;
    UnseenExtension(a, b, y, v, ext);
    DirTails(a, y, v, r.dir);
    ExtendedChain(a, b, [], ext);
    assert [] + ext == ext;
    var e, v' := MakeEntry(name, ext[0], |data|, FILE), AddFile(v, r, ext);
    NewFileEntry(name, ext, |data|);
    FileAdded(b, y, v, r, ext, name, |data|, e);
    var c := WithSlot(b, r, e);
    FileAddedContent(b, y, v, r, ext, name, |data|, e, r);
    StoredContent(b, ext, y.cb, data);
    FileAddedSlot(a, b, c, y, v, v', r, ext, name, |data|, e);
    SlotView(a, c, y, v, v', v.dirs, r, e, name);
    OnceAfterSlot(a, c, y, v, v', v.dirs, r, e, {(r.dir, name)});
    SlotWritten(b, r, e);
    VacantAfterPut(a.data[r.dir], r.idx, e, name);
    if Find(a.data[r.dir], name, 0).None? {
      AbsentOnce(a.data[r.dir], name);
      OnceAfterPut(a.data[r.dir], r.idx, e, name);
    }
  }

  /** After the first vacant slot was taken, the next one is behind it. */
  lemma VacantAfterPut(dir: seq<byte>, i: nat, e: DirEntry, name: seq<byte>)
    requires FirstVacant(dir, 0) == Some(i) && Matches(e, name)
    ensures var f := FirstVacant(PutEntry(dir, i, e), 0); f.Some? ==> f.value > i
  {
    var dir' := PutEntry(dir, i, e);
    hide FirstVacant, PutEntry;
    var f := FirstVacant(dir', 0);
    if f.Some? && f.value <= i { EntryAfterPut(dir, i, e, f.value); }
  }

  lemma AbsentOnce(dir: seq<byte>, key: seq<byte>)
    requires TailUnused(dir) && Find(dir, key, 0).None?
    ensures Once(dir, key)
  {
    FindIsFirst(dir, key, 0);
  }

  lemma StoredContent(b: Image, ext: seq<nat>, cb: nat, data: seq<byte>)
    requires Stored(b, ext, cb, data)
    ensures (forall i :: 0 <= i < |ext| ==> ext[i] < |b.data|) && |data| <= |Flatten(b.data, ext)|
    ensures Flatten(b.data, ext)[..|data|] == data
  {}

  lemma NewFileEntry(name: seq<byte>, ext: seq<nat>, size: nat)
    requires LiveName(name) && ext != [] && ext[0] < 128 && 0 < size < 0x1_0000_0000
    ensures var e := MakeEntry(name, ext[0], size, FILE);
            NewEntry(e, name, ext, size) && forall k :: Matches(e, k) <==> k == name
  {
    MakeEntryFields(name, ext[0], size, FILE);
  }

  lemma FileAddedSlot(a: Image, b: Image, c: Image, y: Layout, v: Volume, v': Volume, r: Ref, ext: seq<nat>,
                      name: seq<byte>, size: nat, e: DirEntry)
    requires VolInv(a, y, v) && VolInv(b, y, v) && r.dir in v.dirs && r.dir < |b.data|
             && FirstVacant(b.data[r.dir], 0) == Some(r.idx)
    requires IsChain(b.fat, ext) && (forall i :: 0 <= i < |ext| ==> !Owns(v, ext[i])) && NewEntry(e, name, ext, size)
             && |ext| == Ceil(size, y.cb)
    requires (forall d :: d in v.dirs ==> 2 <= d < 128 && d < |a.data| && d < |b.data| && b.data[d] == a.data[d])
    requires forall s :: s in v.files ==> Content(b, y, v, s) == Content(a, y, v, s)
    requires r.idx < Slots(b.data[r.dir]) && c == WithSlot(b, r, e) && v' == AddFile(v, r, ext) && VolInv(c, y, v')
             && |b.data| == |a.data|
    ensures OneSlot(a, c, y, v, v', v.dirs, r, e) && Vacant(SlotAt(a, r))
  {
    hide VolInv, Content, TailUnused, IsChain, Owns, DirOk, NewEntry, DifferAt, SlotSound;
    FileAdded(b, y, v, r, ext, name, size, e);
    forall s: Ref | s.dir in v.dirs && s != r ensures Kept(a, c, y, v, v', s) {
      if s in v.files { FileAddedContent(b, y, v, r, ext, name, size, e, s); }
    }
  }

  /** A vacant slot given the entry e, whose name is `name`. */
  lemma SlotView(a: Image, c: Image, y: Layout, v: Volume, v': Volume, dirs: set<nat>, r: Ref, e: DirEntry,
                 name: seq<byte>)
    requires OneSlot(a, c, y, v, v', dirs, r, e) && Vacant(SlotAt(a, r)) && forall k :: Matches(e, k) <==> k == name
    ensures SameBut(a, c, y, v, v', dirs, r.dir, name)
    ensures Hidden(a.data[r.dir], name, r.idx) ==> Lookup(c, y, v', r.dir, name) == Lookup(a, y, v, r.dir, name)
    ensures !Hidden(a.data[r.dir], name, r.idx) && r in v'.files ==>
              Lookup(c, y, v', r.dir, name) == Some(File(Content(c, y, v', r)))
    ensures !Hidden(a.data[r.dir], name, r.idx) && r !in v'.files && r in v'.subs ==>
              Lookup(c, y, v', r.dir, name) == Some(Dir(v'.subs[r]))
    ensures !Hidden(a.data[r.dir], name, r.idx) ==> Find(c.data[r.dir], name, 0) == Some(r.idx)
  {
    hide VolInv, Content, Lookup, OneSlot, Hidden;
    OneSlotParts(a, c, y, v, v', dirs, r, e);
    assert forall k :: !Matches(SlotAt(a, r), k);
    forall d, k | d in dirs && !(d == r.dir && k == name) ensures Lookup(c, y, v', d, k) == Lookup(a, y, v, d, k) {
      OneSlotLookup(a, c, y, v, v', dirs, r, e, d, k);
    }
    if Hidden(a.data[r.dir], name, r.idx) {
      OneSlotLookup(a, c, y, v, v', dirs, r, e, r.dir, name);
    } else {
      OneSlotNew(a, c, y, v, v', dirs, r, e, name);
    }
  }

  lemma OneSlotParts(a: Image, c: Image, y: Layout, v: Volume, v': Volume, dirs: set<nat>, r: Ref, e: DirEntry)
    requires OneSlot(a, c, y, v, v', dirs, r, e)
    ensures VolInv(a, y, v) && VolInv(c, y, v') && dirs <= v.dirs && dirs <= v'.dirs && ValidRef(a, v, r)
            && r.dir in dirs
  {}

  // ---------- deletion ----------

  /** The slot of a live entry marked deleted. */
  lemma GoneView(a: Image, c: Image, y: Layout, v: Volume, v': Volume, dirs: set<nat>, r: Ref, name: seq<byte>)
    requires VolInv(a, y, v) && ValidRef(a, v, r) && OneSlot(a, c, y, v, v', dirs, r, Gone(SlotAt(a, r)))
             && NameOf(SlotAt(a, r)) == name
    ensures SameBut(a, c, y, v, v', dirs, r.dir, name)
    ensures Matches(SlotAt(a, r), name) && Once(a.data[r.dir], name) ==> Lookup(c, y, v', r.dir, name) == None
  {
    hide VolInv, Content, Lookup, OneSlot, Hidden, Once;
    var e := Gone(SlotAt(a, r));
    OneSlotParts(a, c, y, v, v', dirs, r, e);
    assert forall k :: !Matches(e, k) && (k != name ==> !Matches(SlotAt(a, r), k));
    forall d, k | d in dirs && !(d == r.dir && k == name) ensures Lookup(c, y, v', d, k) == Lookup(a, y, v, d, k) {
      OneSlotLookup(a, c, y, v, v', dirs, r, e, d, k);
    }
    if Matches(SlotAt(a, r), name) && Once(a.data[r.dir], name) {
      OneSlotGone(a, c, y, v, v', dirs, r, e, name);
    }
  }

  /** `DeleteFile` on a regular file: the name is gone if it was there once; nothing else changes. */
  lemma FileGoneSeen(a: Image, b: Image, y: Layout, v: Volume, r: Ref)
    requires VolInv(a, y, v) && r in v.files && Released(a, b, v.files[r])
    ensures ValidRef(a, v, r) && r.idx < Slots(b.data[r.dir])
    ensures var c, v', name := WithSlot(b, r, Gone(SlotAt(a, r))), DropFile(v, r), NameOf(SlotAt(a, r));
            && VolInv(c, y, v') && SameBut(a, c, y, v, v', v.dirs, r.dir, name)
            && (Once(a.data[r.dir], name) ==> Lookup(c, y, v', r.dir, name) == None)
            && OnceKept(a, c, v.dirs, {})
  {
    hide OnceKept, VolInv, Content, Lookup, Find, IsChain, Flatten, Once, Gone;
    FileRemoved(a, b, y, v, r);
    FileSlotUsed(a, y, v, r);
    var c, v', name := WithSlot(b, r, Gone(SlotAt(a, r))), DropFile(v, r), NameOf(SlotAt(a, r));
    forall s: Ref | s.dir in v.dirs && s != r ensures Kept(a, c, y, v, v', s) {}
    GoneView(a, c, y, v, v', v.dirs, r, name);
    OnceAfterGone(a, c, y, v, v', v.dirs, r);
  }

  lemma OnceAfterGone(a: Image, c: Image, y: Layout, v: Volume, v': Volume, dirs: set<nat>, r: Ref)
    requires VolInv(a, y, v) && ValidRef(a, v, r) && OneSlot(a, c, y, v, v', dirs, r, Gone(SlotAt(a, r)))
    ensures OnceKept(a, c, dirs, {})
  {
    hide VolInv, Content, Find, Kept, Once;
    OnceAfterSlot(a, c, y, v, v', dirs, r, Gone(SlotAt(a, r)), {});
  }

  /** `DeleteFile` on a directory: seen from the other directories, only its name changes. */
  lemma DirGoneSeen(a: Image, b: Image, y: Layout, v: Volume, r: Ref)
    requires VolInv(a, y, v) && r in v.subs && Released(a, b, [v.subs[r]])
    ensures ValidRef(a, v, r) && r.idx < Slots(b.data[r.dir])
    ensures var c, v', name := WithSlot(b, r, Gone(SlotAt(a, r))), DropDir(v, r, v.subs[r]), NameOf(SlotAt(a, r));
            && VolInv(c, y, v') && SameBut(a, c, y, v, v', v'.dirs, r.dir, name)
            && (r.dir in v'.dirs && Once(a.data[r.dir], name) ==> Lookup(c, y, v', r.dir, name) == None)
            && OnceKept(a, c, v'.dirs, {})
  {
    hide OnceKept, VolInv, Content, Lookup, Find, IsChain, Flatten, Once, Gone;
    DirRemoved(a, b, y, v, r);
    SubSlotUsed(a, y, v, r);
    var c, v', name := WithSlot(b, r, Gone(SlotAt(a, r))), DropDir(v, r, v.subs[r]), NameOf(SlotAt(a, r));
    forall s: Ref | s.dir in v'.dirs && s != r ensures Kept(a, c, y, v, v', s) {}
    if r.dir in v'.dirs {
      GoneView(a, c, y, v, v', v'.dirs, r, name);
      OnceAfterGone(a, c, y, v, v', v'.dirs, r);
    } else {
      OnceSame(a, c, v'.dirs);
      forall d, k | d in v'.dirs ensures Lookup(c, y, v', d, k) == Lookup(a, y, v, d, k) {
        DirTails(a, y, v, d);
        LookupKept(a, c, y, v, v', d, k);
      }
    }
  }

  lemma SubSlotUsed(a: Image, y: Layout, v: Volume, r: Ref)
    requires VolInv(a, y, v) && r in v.subs
    ensures ValidRef(a, v, r) && !Vacant(SlotAt(a, r)) && AttrOf(SlotAt(a, r)) == DIRECTORY
            && StartOf(SlotAt(a, r)) == v.subs[r]
    ensures SizeOf(SlotAt(a, r)) == 0
    ensures v.subs[r] in v.dirs && v.subs[r] != y.root && r !in v.files && |a.data| == 128
  {
    assert SubOk(a, y, v, r);
    assert forall s :: s in v.files ==> FileOk(a, y, v, s);
  }

  // ---------- growth ----------

  /** The name leads to the bytes of the chain of r on b; nothing else changes. */
  ghost predicate RegrewSeen(a: Image, b: Image, c: Image, y: Layout, v: Volume, v': Volume, r: Ref, size: nat,
                             name: seq<byte>)
    requires VolInv(a, y, v)
  {
    && VolInv(c, y, v') && v'.dirs == v.dirs && r.dir in v.dirs && r in v'.files
    && SameBut(a, c, y, v, v', v.dirs, r.dir, name) && OnceKept(a, c, v.dirs, {})
    && (forall i :: 0 <= i < |v'.files[r]| ==> v'.files[r][i] < |b.data|) && size <= |Flatten(b.data, v'.files[r])|
    && Lookup(c, y, v', r.dir, name) == Some(File(Flatten(b.data, v'.files[r])[..size]))
  }

  /** `AppendFile`: the name leads to the longer content; nothing else changes. */
  lemma GrownSeen(a: Image, b: Image, y: Layout, v: Volume, r: Ref, ext: seq<nat>, size: nat, name: seq<byte>)
    requires VolInv(a, y, v) && Extending(a, b, y, v, r, ext, size)
    requires r.dir in v.dirs && r.dir < 128 && Find(a.data[r.dir], name, 0) == Some(r.idx)
    ensures ValidRef(a, v, r) && ValidRef(b, v, r) && b.data[r.dir] == a.data[r.dir]
    ensures RegrewSeen(a, b, WithSlot(b, r, WithSize(SlotAt(a, r), size)), y, v, AddFile(v, r, v.files[r] + ext), r,
            size, name)
  {
    hide OnceKept, Matches, VolInv, Content, Lookup, Find, IsChain, Flatten, Ceil, WithSize, Owns, Regrown, EntryAt;
    RegrownRest(a, b, y, v, r, ext);
    FileGrown(a, b, y, v, r, ext, size);
    var e, c, v' := WithSize(SlotAt(a, r), size), WithSlot(b, r, WithSize(SlotAt(a, r), size)),
      AddFile(v, r, v.files[r] + ext);
    RegrownDirs(a, b, y, v, r, ext);
    forall s: Ref | s.dir in v.dirs && s != r ensures Kept(a, c, y, v, v', s) {}
    assert OneSlot(a, c, y, v, v', v.dirs, r, e);
    ResizedView(a, c, y, v, v', v.dirs, r, size, name);
    ResizedMatches(SlotAt(a, r), size);
    OnceAfterSlot(a, c, y, v, v', v.dirs, r, e, {});
  }

  lemma ResizedMatches(e: DirEntry, size: nat)
    requires size < 0x1_0000_0000
    ensures forall k :: Matches(WithSize(e, size), k) <==> Matches(e, k)
  {
    WithSizeFields(e, size);
  }

  lemma RegrownDirs(a: Image, b: Image, y: Layout, v: Volume, r: Ref, ext: seq<nat>)
    requires VolInv(a, y, v) && r in v.files && Regrown(a, b, v, r, ext) && forall i :: 0 <= i < |ext| ==> ext[i] < 128
    ensures forall d: nat :: d in v.dirs ==> d < 128 && |a.data| == 128 && |b.data| == 128 && b.data[d] == a.data[d]
  {
    hide IsChain, TailUnused;
    assert FileOk(a, y, v, r);
    forall d: nat | d in v.dirs ensures d < 128 && b.data[d] == a.data[d] {
      assert DirOk(a, y, v, d);
      assert d !in v.files[r];
      assert d !in ext;
    }
  }

  lemma ResizedView(a: Image, c: Image, y: Layout, v: Volume, v': Volume, dirs: set<nat>, r: Ref, size: nat,
                    name: seq<byte>)
    requires VolInv(a, y, v) && ValidRef(a, v, r) && r in v'.files && size < 0x1_0000_0000
             && Find(a.data[r.dir], name, 0) == Some(r.idx)
    requires OneSlot(a, c, y, v, v', dirs, r, WithSize(SlotAt(a, r), size))
    ensures SameBut(a, c, y, v, v', dirs, r.dir, name)
    ensures Lookup(c, y, v', r.dir, name) == Some(File(Content(c, y, v', r)))
  {
    hide VolInv, Content, Lookup, OneSlot, WithSize;
    var e := WithSize(SlotAt(a, r), size);
    OneSlotParts(a, c, y, v, v', dirs, r, e);
    WithSizeFields(SlotAt(a, r), size);
    forall d, k | d in dirs && !(d == r.dir && k == name) ensures Lookup(c, y, v', d, k) == Lookup(a, y, v, d, k) {
      OneSlotLookup(a, c, y, v, v', dirs, r, e, d, k);
    }
    DirTails(a, y, v, r.dir);
    FindIsFirst(a.data[r.dir], name, 0);
    OneSlotNew(a, c, y, v, v', dirs, r, e, name);
  }

  // ---------- new directories ----------

  /** `CreateDirectory`: an empty directory, known by its name unless an earlier slot hides it; nothing else changes. */
  lemma DirSeen(a: Image, b: Image, y: Layout, v: Volume, r: Ref, d: nat, name: seq<byte>)
    requires VolInv(a, y, v) && Wf(b, y) && d < 128 && Extended(a, b, [], [d]) && FreshDir(b.data[d], d)
             && LiveName(name)
             && LeadsUp(b.data[d], r.dir, y.root)
    requires r.dir in v.dirs && r.dir < 128 && FirstVacant(a.data[r.dir], 0) == Some(r.idx)
    ensures d !in v.dirs && b.data[r.dir] == a.data[r.dir] && r !in v.subs
    ensures var c, v' := WithSlot(b, r, MakeEntry(name, d, 0, DIRECTORY)), AddSub(AddDir(v, d), r, d);
            && VolInv(c, y, v') && SameBut(a, c, y, v, v', v.dirs, r.dir, name)
            && Lookup(c, y, v', r.dir, name) ==
               (if Hidden(a.data[r.dir], name, r.idx) then Lookup(a, y, v, r.dir, name) else Some(Dir(d)))
            && SlotIs(c, r, MakeEntry(name, d, 0, 0x10))
            && (forall k :: Lookup(c, y, v', d, k) == None)
            && OnceKept(a, c, v.dirs, {(r.dir, name)})
               && (Find(a.data[r.dir], name, 0).None? ==> Once(c.data[r.dir], name))
  {
    hide OnceKept, Once, VolInv, Content, Lookup, Find, IsChain, Flatten, MakeEntry, Owns, FreshDir, Extended, Hidden,
         WithSlot, Matches;
    UnseenExtension(a, b, y, v, [d]);
    DirTails(a, y, v, r.dir);
    DirAdded(a, b, y, v, d);
    var v1 := AddDir(v, d);
    SubAdded(b, y, v1, r, d, name);
    var e, v' := MakeEntry(name, d, 0, DIRECTORY), AddSub(v1, r, d);
    var c := WithSlot(b, r, e);
    MakeDirEntry(name, d);
    DirAddedSlot(a, b, c, y, v, v', r, d, e);
    SlotView(a, c, y, v, v', v.dirs, r, e, name);
    forall k ensures Lookup(c, y, v', d, k) == None { NewDirEmpty(a, c, y, v, v', d, k); }
    SlotWritten(b, r, e);
    OnceAfterSlot(a, c, y, v, v', v.dirs, r, e, {(r.dir, name)});
    if Find(a.data[r.dir], name, 0).None? {
      AbsentOnce(a.data[r.dir], name);
      OnceAfterPut(a.data[r.dir], r.idx, e, name);
    }
  }

  lemma WithSlotOther(b: Image, r: Ref, e: DirEntry, d: nat)
    requires r.dir < |b.data| && r.idx < Slots(b.data[r.dir]) && d < |b.data| && d != r.dir
    ensures WithSlot(b, r, e).data[d] == b.data[d] && |WithSlot(b, r, e).data| == |b.data|
  {}

  lemma FreshDirOnce(dir: seq<byte>, d: nat, k: seq<byte>)
    requires FreshDir(dir, d) && Plain(k)
    ensures Once(dir, k)
  {
    forall i: nat | i < Slots(dir) ensures !Matches(EntryAt(dir, i), k) {
      if i < 2 { assert EntryAt(dir, i)[0] == 46; } else { assert EntryAt(dir, i)[0] == 0; }
    }
  }

  lemma MakeDirEntry(name: seq<byte>, d: nat)
    requires LiveName(name) && d < 128
    ensures forall k :: Matches(MakeEntry(name, d, 0, DIRECTORY), k) <==> k == name
  {
    MakeEntryFields(name, d, 0, DIRECTORY);
  }

  lemma DirAddedSlot(a: Image, b: Image, c: Image, y: Layout, v: Volume, v': Volume, r: Ref, d: nat, e: DirEntry)
    requires VolInv(a, y, v) && r.dir in v.dirs && r.dir < |a.data| && FirstVacant(a.data[r.dir], 0) == Some(r.idx)
             && d !in v.dirs
    requires |a.data| == 128 && |b.data| == 128 && (forall x :: x in v.dirs ==> x < 128 && b.data[x] == a.data[x])
    requires r.idx < Slots(b.data[r.dir]) && c == WithSlot(b, r, e) && v' == AddSub(AddDir(v, d), r, d)
             && VolInv(c, y, v')
    requires forall s :: s in v.files ==> Content(c, y, v', s) == Content(a, y, v, s)
    ensures OneSlot(a, c, y, v, v', v.dirs, r, e) && Vacant(SlotAt(a, r)) && r !in v.files
  {
    hide VolInv, Content, TailUnused, IsChain, Owns, DirOk;
    VacantIsUnknown(a, y, v, r);
    forall s: Ref | s.dir in v.dirs && s != r ensures Kept(a, c, y, v, v', s) {}
  }

  lemma NewDirEmpty(a: Image, c: Image, y: Layout, v: Volume, v': Volume, d: nat, k: seq<byte>)
    requires VolInv(a, y, v) && VolInv(c, y, v') && d !in v.dirs && d in v'.dirs && v'.files == v.files
    requires forall s: Ref :: s.dir == d && s in v'.subs ==> s in v.subs
    ensures Lookup(c, y, v', d, k) == None
  {
    hide IsChain, Find, DirOk;
    assert forall s :: s in v.files ==> FileOk(a, y, v, s);
    assert forall s :: s in v.subs ==> SubOk(a, y, v, s);
  }
}

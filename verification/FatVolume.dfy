/** The volume invariant: directories, files and their chains in one FAT image, and how it survives updates. */
module FatVolume {
  import opened Prelude
  import opened FatDisk
  import opened FatEntries
  import opened FatChains

  /** A directory slot: the cluster of the directory and the index of the entry in it. */
  datatype Ref = Ref(dir: nat, idx: nat)

  /** What is alive on the volume: directory clusters, files with their chains, subdirectory entries. */
  datatype Volume = Volume(dirs: set<nat>, files: map<Ref, seq<nat>>, subs: map<Ref, nat>)

  /** The volume's fixed parameters: bytes per cluster and the root directory's cluster. */
  datatype Layout = Layout(cb: nat, root: nat) {
    ghost predicate Valid() { cb > 0 && cb % 512 == 0 && 2 <= root < 128 }
  }

  ghost predicate Wf(a: Image, y: Layout) {
    && y.Valid() && |a.fat| >= 128 && |a.data| == 128
    && (forall c: nat :: 2 <= c < 128 ==> |a.data[c]| == y.cb)
  }

  /** Clusters needed for n bytes. */
  function Ceil(n: nat, cb: nat): nat
    requires cb > 0
  {
    (n + cb - 1) / cb
  }

  /** The slot r of the image. */
  function SlotAt(a: Image, r: Ref): DirEntry
    requires r.dir < |a.data| && r.idx < Slots(a.data[r.dir])
  {
    EntryAt(a.data[r.dir], r.idx)
  }

  ghost predicate ValidRef(a: Image, v: Volume, r: Ref) {
    r.dir in v.dirs && r.dir < |a.data| && r.idx < Slots(a.data[r.dir])
  }

  /** The entry of a regular file with the given chain. */
  ghost predicate FileEntry(e: DirEntry, chain: seq<nat>, cb: nat)
    requires cb > 0
  {
    && !Vacant(e) && AttrOf(e) == FILE && SizeOf(e) > 0
    && chain != [] && StartOf(e) == chain[0] && |chain| == Ceil(SizeOf(e), cb)
  }

  ghost predicate SubEntry(e: DirEntry, c: nat) {
    !Vacant(e) && AttrOf(e) == DIRECTORY && StartOf(e) == c && SizeOf(e) == 0
  }

  /** The "." and ".." entries at the start of a subdirectory. */
  predicate DotSlot(r: Ref, e: DirEntry, root: nat) {
    r.dir != root && r.idx < 2 && e[0] == 46 && AttrOf(e) == DIRECTORY
  }

  /** "." and ".." with blanks. */
  const DOT_NAME: seq<byte> := [46, 32, 32, 32, 32, 32, 32, 32, 32, 32, 32]
  const DOTS_NAME: seq<byte> := [46, 46, 32, 32, 32, 32, 32, 32, 32, 32, 32]

  /** The entry e has the name, the directory attribute, start cluster c and no size. */
  predicate IsDot(e: DirEntry, name: seq<byte>, c: nat) {
    NameOf(e) == name && AttrOf(e) == 0x10 && StartOf(e) == c && SizeOf(e) == 0
  }

  /** The cluster the second entry of a directory names. */
  function UpOf(dir: seq<byte>): nat
    requires Slots(dir) >= 2
  {
    StartOf(EntryAt(dir, 1))
  }

  /** The cluster of subdirectory d begins with "." for d itself and "..". */
  ghost predicate Dotted(dir: seq<byte>, d: nat) {
    Slots(dir) >= 2 && IsDot(EntryAt(dir, 0), DOT_NAME, d) && IsDot(EntryAt(dir, 1), DOTS_NAME, UpOf(dir))
  }

  /** The dot entries of subdirectory d, with ".." naming cluster `up`. */
  ghost predicate DotsAre(dir: seq<byte>, d: nat, up: nat) { Dotted(dir, d) && UpOf(dir) == up }

  /** ".." names the directory that holds the entry, by its cluster, or by 0 if that is the root. */
  ghost predicate LeadsUp(dir: seq<byte>, parent: nat, root: nat) {
    Slots(dir) >= 2 && (UpOf(dir) == parent || (UpOf(dir) == 0 && parent == root))
  }

  /** Slots of files and subdirectories lie behind the dot entries. */
  predicate Proper(r: Ref, root: nat) { r.dir == root || r.idx >= 2 }

  ghost predicate DirOk(a: Image, y: Layout, v: Volume, d: nat)
    requires Wf(a, y)
  {
    && 2 <= d < 128 && a.fat[d] == EOC && TailUnused(a.data[d]) && (d != y.root ==> Dotted(a.data[d], d))
    && (forall i: nat :: i < Slots(a.data[d]) && !Vacant(EntryAt(a.data[d], i)) ==>
          Ref(d, i) in v.files || Ref(d, i) in v.subs || DotSlot(Ref(d, i), EntryAt(a.data[d], i), y.root))
  }

  ghost predicate FileOk(a: Image, y: Layout, v: Volume, r: Ref)
    requires Wf(a, y) && r in v.files
  {
    && ValidRef(a, v, r) && Proper(r, y.root) && FileEntry(SlotAt(a, r), v.files[r], y.cb)
    && IsChain(a.fat, v.files[r])
    && (forall i :: 0 <= i < |v.files[r]| ==> v.files[r][i] !in v.dirs)
  }

  ghost predicate SubOk(a: Image, y: Layout, v: Volume, r: Ref)
    requires Wf(a, y) && r in v.subs
  {
    && ValidRef(a, v, r) && Proper(r, y.root) && SubEntry(SlotAt(a, r), v.subs[r])
    && v.subs[r] in v.dirs && v.subs[r] != y.root
    && v.subs[r] < |a.data| && LeadsUp(a.data[v.subs[r]], r.dir, y.root)
  }

  ghost predicate NoShare(p: seq<nat>, q: seq<nat>) {
    forall i, j :: 0 <= i < |p| && 0 <= j < |q| ==> p[i] != q[j]
  }

  /** The volume invariant. Every live file's chain is acyclic (see `ChainDistinct`), ended by the end mark and as long
      as its size requires; chains share no cluster with each other or with a directory; every live slot is accounted
      for. */
  ghost predicate VolInv(a: Image, y: Layout, v: Volume) {
    && Wf(a, y) && y.root in v.dirs
    && (forall d :: d in v.dirs ==> DirOk(a, y, v, d))
    && (forall r :: r in v.files ==> FileOk(a, y, v, r))
    && (forall r :: r in v.subs ==> SubOk(a, y, v, r))
    && (forall r, s :: r in v.files && s in v.files && r != s ==> NoShare(v.files[r], v.files[s]))
    && (forall r, s :: r in v.subs && s in v.subs && v.subs[r] == v.subs[s] ==> r == s)
  }

  /** Cluster c belongs to a directory or a file. */
  ghost predicate Owns(v: Volume, c: nat) {
    c in v.dirs || exists r :: r in v.files && c in v.files[r]
  }

  /** The bytes of a chain, cluster after cluster. */
  function Flatten(data: seq<seq<byte>>, chain: seq<nat>): seq<byte>
    requires forall i :: 0 <= i < |chain| ==> chain[i] < |data|
  {
    if chain == [] then [] else Flatten(data, chain[..|chain| - 1]) + data[chain[|chain| - 1]]
  }

  /** The content of a file. */
  ghost function Content(a: Image, y: Layout, v: Volume, r: Ref): seq<byte>
    requires VolInv(a, y, v) && r in v.files
  {
    ContentFits(a, y, v, r);
    Flatten(a.data, v.files[r])[..SizeOf(SlotAt(a, r))]
  }

  lemma {:induction false} FlattenLength(data: seq<seq<byte>>, chain: seq<nat>, cb: nat)
    requires forall i :: 0 <= i < |chain| ==> chain[i] < |data| && |data[chain[i]]| == cb
    ensures |Flatten(data, chain)| == |chain| * cb
  {
    hide Flatten;
    if chain == [] {
      FlattenNone(data);
    } else {
      FlattenLength(data, chain[..|chain| - 1], cb);
      FlattenLast(data, chain);
      assert |chain| * cb == (|chain| - 1) * cb + cb;
    }
  }

  lemma {:induction false} FlattenSame(data: seq<seq<byte>>, data': seq<seq<byte>>, chain: seq<nat>)
    requires |data'| == |data|
    requires forall i :: 0 <= i < |chain| ==> chain[i] < |data| && data'[chain[i]] == data[chain[i]]
    ensures Flatten(data', chain) == Flatten(data, chain)
  {
    hide Flatten;
    if chain == [] {
      FlattenNone(data);
      FlattenNone(data');
    } else {
      FlattenSame(data, data', chain[..|chain| - 1]);
      FlattenLast(data, chain);
      FlattenLast(data', chain);
    }
  }

  lemma {:induction false} FlattenConcat(data: seq<seq<byte>>, p: seq<nat>, q: seq<nat>)
    requires forall i :: 0 <= i < |p| ==> p[i] < |data|
    requires forall i :: 0 <= i < |q| ==> q[i] < |data|
    ensures Flatten(data, p + q) == Flatten(data, p) + Flatten(data, q)
  {
    hide Flatten;
    if q == [] {
      assert p + q == p;
      FlattenNone(data);
    } else {
      var n := |q| - 1;
      FlattenConcat(data, p, q[..n]);
      assert (p + q)[..|p + q| - 1] == p + q[..n] && (p + q)[|p + q| - 1] == q[n];
      FlattenLast(data, p + q);
      FlattenLast(data, q);
    }
  }

  lemma FlattenNone(data: seq<seq<byte>>)
    ensures Flatten(data, []) == []
  {}

  lemma FlattenLast(data: seq<seq<byte>>, chain: seq<nat>)
    requires chain != [] && forall i :: 0 <= i < |chain| ==> chain[i] < |data|
    ensures Flatten(data, chain) == Flatten(data, chain[..|chain| - 1]) + data[chain[|chain| - 1]]
  {}

  /** The bytes of cluster i of a chain. */
  lemma {:induction false} FlattenAt(data: seq<seq<byte>>, chain: seq<nat>, cb: nat, i: nat)
    requires i < |chain| && forall j :: 0 <= j < |chain| ==> chain[j] < |data| && |data[chain[j]]| == cb
    ensures i * cb + cb <= |Flatten(data, chain)| && Flatten(data, chain)[i * cb..i * cb + cb] == data[chain[i]]
  {
    hide Flatten;
    var n := |chain| - 1;
    var front, last := Flatten(data, chain[..n]), data[chain[n]];
    FlattenLast(data, chain);
    FlattenLength(data, chain[..n], cb);
    if i < n {
      FlattenAt(data, chain[..n], cb, i);
      SliceFront(front, last, i * cb, cb);
    } else {
      SliceBack(front, last);
    }
  }

  lemma SliceFront(front: seq<byte>, last: seq<byte>, at: nat, len: nat)
    requires at + len <= |front|
    ensures (front + last)[at..at + len] == front[at..at + len]
  {}

  lemma SliceBack(front: seq<byte>, last: seq<byte>)
    ensures (front + last)[|front|..|front| + |last|] == last
  {}

  /** A whole number of clusters covers the bytes, and one cluster less does not. */
  lemma CeilBounds(n: nat, cb: nat)
    requires cb > 0
    ensures n <= Ceil(n, cb) * cb < n + cb
  {
    var q := (n + cb - 1) / cb;
    DivBounds(n + cb - 1, cb);
  }

  lemma DivBounds(m: nat, d: nat)
    requires d > 0
    ensures m / d * d <= m < m / d * d + d
  {
    assert m == d * (m / d) + m % d;
  }

  lemma CeilUnique(n: nat, cb: nat, k: nat)
    requires cb > 0 && n <= k * cb < n + cb
    ensures Ceil(n, cb) == k
  {
    CeilBounds(n, cb);
    var q := Ceil(n, cb);
    if q < k { Rows(q, k, cb); } else if k < q { Rows(k, q, cb); }
  }

  lemma ContentFits(a: Image, y: Layout, v: Volume, r: Ref)
    requires VolInv(a, y, v) && r in v.files
    ensures FileOk(a, y, v, r) && SizeOf(SlotAt(a, r)) <= |Flatten(a.data, v.files[r])|
    ensures |Flatten(a.data, v.files[r])| == |v.files[r]| * y.cb
  {
    assert FileOk(a, y, v, r);
    FlattenLength(a.data, v.files[r], y.cb);
    CeilBounds(SizeOf(SlotAt(a, r)), y.cb);
  }

  // ---------- updates outside the live clusters ----------

  /** A free cluster belongs to nothing. */
  lemma FreeIsUnowned(a: Image, y: Layout, v: Volume, c: nat)
    requires VolInv(a, y, v) && c < 128 && a.fat[c] == 0
    ensures !Owns(v, c)
  {
    assert forall d :: d in v.dirs ==> DirOk(a, y, v, d);
    forall r | r in v.files ensures c !in v.files[r] {
      assert FileOk(a, y, v, r);
      forall i | 0 <= i < |v.files[r]| ensures v.files[r][i] != c { EndMark(a.fat, v.files[r], i); }
    }
  }

  /** The words and bytes of everything alive are the same in b. */
  ghost predicate SameLive(a: Image, b: Image, v: Volume) {
    && |b.fat| == |a.fat| && |b.data| == |a.data|
    && (forall c: nat :: c < 128 && c < |a.fat| && c < |a.data| && Owns(v, c) ==>
       b.fat[c] == a.fat[c] && b.data[c] == a.data[c])
  }

  lemma ChainSame(fat: seq<nat>, fat': seq<nat>, chain: seq<nat>)
    requires IsChain(fat, chain) && |fat'| == |fat| && forall i :: 0 <= i < |chain| ==> fat'[chain[i]] == fat[chain[i]]
    ensures IsChain(fat', chain)
  {
    forall i | 0 < i < |chain| ensures fat'[chain[i - 1]] == chain[i] {
      assert fat[chain[i - 1]] == chain[i];
    }
  }

  /** A directory whose cluster did not change is still sound, for any volume that knows at least its slots. */
  lemma DirKept(a: Image, b: Image, y: Layout, v: Volume, v': Volume, d: nat)
    requires Wf(a, y) && Wf(b, y) && DirOk(a, y, v, d) && b.fat[d] == a.fat[d] && b.data[d] == a.data[d]
    requires forall i: nat :: Ref(d, i) in v.files ==> Ref(d, i) in v'.files
    requires forall i: nat :: Ref(d, i) in v.subs ==> Ref(d, i) in v'.subs
    ensures DirOk(b, y, v', d)
  {}

  /** A file whose slot, links and bytes did not change is still sound, with the same content. */
  lemma FileKept(a: Image, b: Image, y: Layout, v: Volume, v': Volume, r: Ref)
    requires Wf(a, y) && Wf(b, y) && r in v.files && r in v'.files && v'.files[r] == v.files[r] && |b.fat| == |a.fat|
    requires FileOk(a, y, v, r) && ValidRef(b, v', r) && SlotAt(b, r) == SlotAt(a, r)
    requires forall i :: 0 <= i < |v.files[r]| ==> v.files[r][i] !in v'.dirs
    requires forall i :: 0 <= i < |v.files[r]| ==> b.fat[v.files[r][i]] == a.fat[v.files[r][i]]
    requires forall i :: 0 <= i < |v.files[r]| ==> b.data[v.files[r][i]] == a.data[v.files[r][i]]
    ensures FileOk(b, y, v', r) && Flatten(b.data, v'.files[r]) == Flatten(a.data, v.files[r])
  {
    ChainSame(a.fat, b.fat, v.files[r]);
    FlattenSame(a.data, b.data, v.files[r]);
  }

  /** The parts of the invariant, one by one. */
  lemma VolParts(a: Image, y: Layout, v: Volume)
    requires VolInv(a, y, v)
    ensures Wf(a, y) && y.root in v.dirs
    ensures forall d :: d in v.dirs ==> DirOk(a, y, v, d)
    ensures forall r :: r in v.files ==> FileOk(a, y, v, r)
    ensures forall r :: r in v.subs ==> SubOk(a, y, v, r)
  {}

  lemma ChainBounds(fat: seq<nat>, chain: seq<nat>)
    requires IsChain(fat, chain)
    ensures chain != [] && forall i :: 0 <= i < |chain| ==> 2 <= chain[i] < 128
  {}

  lemma OwnsChain(v: Volume, r: Ref)
    requires r in v.files
    ensures forall i :: 0 <= i < |v.files[r]| ==> Owns(v, v.files[r][i])
  {
    forall i | 0 <= i < |v.files[r]| ensures Owns(v, v.files[r][i]) { assert v.files[r][i] in v.files[r]; }
  }

  lemma DirSame(a: Image, b: Image, y: Layout, v: Volume, d: nat)
    requires VolInv(a, y, v) && SameLive(a, b, v) && Wf(b, y) && d in v.dirs
    ensures DirOk(b, y, v, d) && d < |a.data| && b.data[d] == a.data[d]
  {
    assert DirOk(a, y, v, d);
    assert Owns(v, d);
    DirKept(a, b, y, v, v, d);
  }

  lemma FileSame(a: Image, b: Image, y: Layout, v: Volume, r: Ref)
    requires VolInv(a, y, v) && SameLive(a, b, v) && Wf(b, y) && r in v.files
    ensures FileOk(a, y, v, r) && FileOk(b, y, v, r) && SlotAt(b, r) == SlotAt(a, r)
    ensures Flatten(b.data, v.files[r]) == Flatten(a.data, v.files[r])
  {
    hide VolInv, IsChain, Flatten, TailUnused, DirOk, Owns;
    VolParts(a, y, v);
    assert FileOk(a, y, v, r);
    DirSame(a, b, y, v, r.dir);
    OwnsChain(v, r);
    ChainBounds(a.fat, v.files[r]);
    FileKept(a, b, y, v, v, r);
  }

  /** Updates outside the live clusters keep the volume and every content. */
  lemma VolSame(a: Image, b: Image, y: Layout, v: Volume)
    requires VolInv(a, y, v) && SameLive(a, b, v) && Wf(b, y)
    ensures VolInv(b, y, v) && SameContents(a, b, y, v, v)
  {
    hide DirOk, FileOk, SameLive;
    forall d | d in v.dirs ensures DirOk(b, y, v, d) { DirSame(a, b, y, v, d); }
    forall r | r in v.files ensures FileOk(b, y, v, r) { FileSame(a, b, y, v, r); }
    forall r | r in v.subs ensures SubOk(b, y, v, r) {
      assert SubOk(a, y, v, r);
      DirSame(a, b, y, v, r.dir);
      DirSame(a, b, y, v, v.subs[r]);
    }
    forall r | r in v.files ensures Content(b, y, v, r) == Content(a, y, v, r) { FileSame(a, b, y, v, r); }
  }

  /** The files of v that v' still has read the same. */
  ghost predicate SameContents(a: Image, b: Image, y: Layout, v: Volume, v': Volume)
    requires VolInv(a, y, v) && VolInv(b, y, v')
  {
    forall r :: r in v.files && r in v'.files ==> Content(b, y, v', r) == Content(a, y, v, r)
  }

  // ---------- growing chains ----------

  function Last(s: seq<nat>): nat
    requires s != []
  {
    s[|s| - 1]
  }

  /** The cluster whose link an extension of `base` rewrites, if any. */
  predicate Hook(base: seq<nat>, ext: seq<nat>, c: nat) {
    base != [] && ext != [] && c == Last(base)
  }

  /** The extension: distinct clusters free in a, linked to each other in b and ended by the end mark. */
  ghost predicate ExtOk(fa: seq<nat>, fb: seq<nat>, ext: seq<nat>)
    requires |fa| >= 128 && |fb| == |fa|
  {
    && (forall i :: 0 <= i < |ext| ==> 2 <= ext[i] < 128 && fa[ext[i]] == 0)
    && (forall i, j :: 0 <= i < j < |ext| ==> ext[i] != ext[j])
    && (forall i :: 0 < i < |ext| ==> fb[ext[i - 1]] == ext[i])
    && (ext != [] ==> fb[Last(ext)] == EOC)
  }

  /** b is a with the free clusters `ext` linked behind the chain `base`, which may be empty. */
  ghost predicate Extended(a: Image, b: Image, base: seq<nat>, ext: seq<nat>) {
    && |a.fat| >= 128 && |b.fat| == |a.fat| && |a.data| == 128 && |b.data| == 128
    && (base != [] ==> IsChain(a.fat, base))
    && ExtOk(a.fat, b.fat, ext)
    && (base != [] && ext != [] ==> b.fat[Last(base)] == ext[0])
    && (forall c: nat :: c < |a.fat| && c !in ext && !Hook(base, ext, c) ==> b.fat[c] == a.fat[c])
    && (forall c: nat :: c < 128 && c !in ext ==> b.data[c] == a.data[c])
  }

  lemma ExtendedStart(a: Image, base: seq<nat>)
    requires |a.fat| >= 128 && |a.data| == 128 && (base != [] ==> IsChain(a.fat, base))
    ensures Extended(a, a, base, [])
  {}

  /** The cluster the next link is written to. */
  function Tail(base: seq<nat>, ext: seq<nat>): Option<nat> {
    if ext != [] then Some(Last(ext)) else if base != [] then Some(Last(base)) else None
  }

  /** One round of the write loops: allocate c, link it behind the tail, fill it. */
  function Grow(cur: Image, tail: Option<nat>, c: nat, buf: seq<byte>): Image
    requires c < |cur.fat| && c < |cur.data| && (tail.Some? ==> tail.value < |cur.fat|)
  {
    var fat := cur.fat[c := EOC];
    Image(if tail.Some? then fat[tail.value := c] else fat, cur.data[c := buf])
  }

  /** In an extended image the members of the extension and the end of the base are in use. */
  lemma ExtendedInUse(a: Image, cur: Image, base: seq<nat>, ext: seq<nat>, c: nat)
    requires Extended(a, cur, base, ext) && 2 <= c < 128 && cur.fat[c] == 0
    ensures c !in ext && (base != [] ==> c != Last(base)) && a.fat[c] == 0
  {
    forall i | 0 <= i < |ext| ensures ext[i] != c {
      if i < |ext| - 1 { assert cur.fat[ext[i + 1 - 1]] == ext[i + 1]; } else { assert cur.fat[Last(ext)] == EOC; }
    }
  }

  lemma GrowFat(cur: Image, tail: Option<nat>, c: nat, buf: seq<byte>)
    requires c < |cur.fat| && c < |cur.data| && (tail.Some? ==> tail.value < |cur.fat| && tail.value != c)
    ensures var b := Grow(cur, tail, c, buf);
            && |b.fat| == |cur.fat| && |b.data| == |cur.data| && b.fat[c] == EOC
               && (tail.Some? ==> b.fat[tail.value] == c)
            && (forall e: nat :: e < |cur.fat| && e != c && tail != Some(e) ==> b.fat[e] == cur.fat[e])
            && (forall e: nat :: e < |cur.data| && e != c ==> b.data[e] == cur.data[e])
  {}

  lemma ExtendStep(a: Image, cur: Image, base: seq<nat>, ext: seq<nat>, c: nat, buf: seq<byte>)
    requires Extended(a, cur, base, ext) && 2 <= c < 128 && cur.fat[c] == 0
    ensures Tail(base, ext).Some? ==> Tail(base, ext).value < 128 && Tail(base, ext).value != c
    ensures Extended(a, Grow(cur, Tail(base, ext), c, buf), base, ext + [c])
  {
    hide IsChain, ExtOk, Grow;
    ExtendedInUse(a, cur, base, ext, c);
    if base != [] {
      ChainBounds(a.fat, base);
      BaseNotExt(a, cur, base, ext);
    }
    var ext', tail := ext + [c], Tail(base, ext);
    ExtBounds(a.fat, cur.fat, ext);
    var b := Grow(cur, tail, c, buf);
    GrowFat(cur, tail, c, buf);
    forall e: nat | e in ext && e != Last(ext) ensures b.fat[e] == cur.fat[e] {
      assert tail == Some(Last(ext));
    }
    ExtOkStep(a.fat, cur.fat, b.fat, ext, c);
    forall e: nat | e !in ext' ensures e != c && e !in ext { assert c in ext' && forall x :: x in ext ==> x in ext'; }
    forall e: nat | e < |a.fat| && e !in ext' && !Hook(base, ext', e) ensures b.fat[e] == a.fat[e] {
      assert tail.Some? ==> e != tail.value;
    }
    if base != [] && ext != [] {
      assert Last(base) !in ext;
      assert ext'[0] == ext[0];
    }
  }

  lemma ExtBounds(fa: seq<nat>, fb: seq<nat>, ext: seq<nat>)
    requires |fa| >= 128 && |fb| == |fa| && ExtOk(fa, fb, ext)
    ensures (ext != [] ==> Last(ext) < 128) && forall e :: e in ext ==> 2 <= e < 128
  {}

  lemma ExtOkStep(fa: seq<nat>, fc: seq<nat>, fb: seq<nat>, ext: seq<nat>, c: nat)
    requires |fa| >= 128 && |fc| == |fa| && |fb| == |fa| && ExtOk(fa, fc, ext)
    requires 2 <= c < 128 && fa[c] == 0 && c !in ext && fb[c] == EOC && (ext != [] ==> fb[Last(ext)] == c)
    requires forall e: nat :: e in ext && e != Last(ext) ==> fb[e] == fc[e]
    ensures ExtOk(fa, fb, ext + [c])
  {
    var ext' := ext + [c];
    forall i | 0 < i < |ext'| ensures fb[ext'[i - 1]] == ext'[i] {
      if i < |ext| { assert fc[ext[i - 1]] == ext[i]; assert ext[i - 1] != Last(ext); }
    }
  }

  lemma BaseNotExt(a: Image, b: Image, base: seq<nat>, ext: seq<nat>)
    requires Extended(a, b, base, ext) && base != []
    ensures forall i, j :: 0 <= i < |base| && 0 <= j < |ext| ==> base[i] != ext[j]
  {
    forall i | 0 <= i < |base| ensures a.fat[base[i]] != 0 { EndMark(a.fat, base, i); }
  }

  /** The grown sequence is one chain. */
  lemma ExtendedChain(a: Image, b: Image, base: seq<nat>, ext: seq<nat>)
    requires Extended(a, b, base, ext) && base + ext != []
    ensures IsChain(b.fat, base + ext)
  {
    var chain := base + ext;
    if base != [] {
      BaseNotExt(a, b, base, ext);
      ChainBounds(a.fat, base);
      ChainDistinct(a.fat, base);
    }
    forall i | 0 < i < |chain| ensures b.fat[chain[i - 1]] == chain[i] {
      if i < |base| {
        EndMark(a.fat, base, i - 1);
        assert chain[i - 1] == base[i - 1] && base[i - 1] != Last(base);
        assert base[i - 1] !in ext;
      } else if i > |base| {
        assert chain[i - 1] == ext[i - 1 - |base|] && chain[i] == ext[i - |base|];
      }
    }
    if ext == [] {
      EndMark(a.fat, base, |base| - 1);
      assert chain == base;
    }
  }

  /** Each round takes one free cluster. */
  lemma ExtendedFree(a: Image, b: Image, base: seq<nat>, ext: seq<nat>)
    requires Extended(a, b, base, ext)
    ensures |FreeClusters(b.fat)| == |FreeClusters(a.fat)| - |ext|
  {
    var taken := set i | 0 <= i < |ext| :: ext[i];
    DistinctSize(ext);
    forall c: nat ensures c in FreeClusters(b.fat) <==> c in FreeClusters(a.fat) - taken {
      if c in FreeClusters(b.fat) { ExtendedInUse(a, b, base, ext, c); }
      if c in FreeClusters(a.fat) && c !in taken {
        assert c !in ext;
        if base != [] { EndMark(a.fat, base, |base| - 1); }
      }
    }
    assert FreeClusters(b.fat) == FreeClusters(a.fat) - taken;
    assert taken <= FreeClusters(a.fat);
  }

  lemma {:induction false} DistinctSize(s: seq<nat>)
    requires forall i, j :: 0 <= i < j < |s| ==> s[i] != s[j]
    ensures |set i | 0 <= i < |s| :: s[i]| == |s|
  {
    if s != [] {
      var n := |s| - 1;
      DistinctSize(s[..n]);
      var rest := set i | 0 <= i < n :: s[..n][i];
      assert (set i | 0 <= i < |s| :: s[i]) == rest + {s[n]};
      assert s[n] !in rest;
    }
  }

  lemma GrowOther(cur: Image, tail: Option<nat>, c: nat, buf: seq<byte>)
    requires c < |cur.fat| && c < |cur.data| && (tail.Some? ==> tail.value < |cur.fat|)
    ensures var b := Grow(cur, tail, c, buf);
            |b.data| == |cur.data| && b.data[c] == buf && forall e: nat :: e < |cur.data| && e != c ==>
                b.data[e] == cur.data[e]
  {}

  lemma GrowData(cur: Image, tail: Option<nat>, ext: seq<nat>, c: nat, buf: seq<byte>)
    requires c < |cur.fat| && c < |cur.data| && (tail.Some? ==> tail.value < |cur.fat|)
    requires forall i :: 0 <= i < |ext| ==> ext[i] < |cur.data| && ext[i] != c
    ensures Flatten(Grow(cur, tail, c, buf).data, ext + [c]) == Flatten(cur.data, ext) + buf
  {
    hide Grow, Flatten;
    var b := Grow(cur, tail, c, buf);
    GrowOther(cur, tail, c, buf);
    FlattenSame(cur.data, b.data, ext);
    var ext' := ext + [c];
    assert ext'[..|ext'| - 1] == ext && ext'[|ext'| - 1] == c;
    FlattenLast(b.data, ext');
  }

  /** Clusters taken for a chain that no entry refers to yet, or ever, leave the volume as it was. */
  lemma ExtendedSame(a: Image, b: Image, y: Layout, v: Volume, ext: seq<nat>)
    requires VolInv(a, y, v) && Wf(b, y) && Extended(a, b, [], ext)
    ensures SameLive(a, b, v) && forall i :: 0 <= i < |ext| ==> !Owns(v, ext[i])
  {
    forall i | 0 <= i < |ext| ensures !Owns(v, ext[i]) { FreeIsUnowned(a, y, v, ext[i]); }
  }

  // ---------- the write loops ----------

  /** The first |data| bytes of the chain are `data`. */
  ghost predicate Stored(a: Image, chain: seq<nat>, cb: nat, data: seq<byte>) {
    && (forall i :: 0 <= i < |chain| ==> chain[i] < |a.data| && |a.data[chain[i]]| == cb)
    && |data| <= |Flatten(a.data, chain)| == |chain| * cb
    && Flatten(a.data, chain)[..|data|] == data
  }

  /** Where a write loop stands after `offset` bytes: every cluster but the last is full. */
  ghost predicate Progress(a: Image, ext: seq<nat>, cb: nat, data: seq<byte>, offset: nat) {
    && offset <= |data| && cb > 0 && Stored(a, ext, cb, data[..offset]) && |ext| == Ceil(offset, cb)
    && (offset < |data| ==> offset == |ext| * cb)
  }

  lemma StoredNothing(a: Image, cb: nat, data: seq<byte>)
    requires cb > 0
    ensures Progress(a, [], cb, data, 0)
  {
    CeilUnique(0, cb, 0);
  }

  lemma OutOfClusters(a: Image, cur: Image, base: seq<nat>, ext: seq<nat>, cb: nat, offset: nat, size: nat)
    requires cb > 0 && Extended(a, cur, base, ext) && FirstFree(cur.fat, 2).None?
    requires offset == |ext| * cb && offset < size
    ensures |FreeClusters(a.fat)| < Ceil(size, cb) && |ext| < Ceil(size, cb) && FreeClusters(cur.fat) == {}
  {
    hide Extended;
    assert |a.fat| >= 128 && |cur.fat| == |a.fat| by { ExtendedSizes(a, cur, base, ext); }
    FirstFreeIff(cur.fat);
    ExtendedFree(a, cur, base, ext);
    CeilBounds(size, cb);
    var q := Ceil(size, cb);
    if q <= |ext| {
      if q < |ext| { Rows(q, |ext|, cb); }
    }
  }

  lemma ExtendedSizes(a: Image, b: Image, base: seq<nat>, ext: seq<nat>)
    requires Extended(a, b, base, ext)
    ensures |a.fat| >= 128 && |b.fat| == |a.fat| && |a.data| == 128 && |b.data| == 128
  {}

  /** One round stores the next slice of the data. */
  lemma StoreRound(a: Image, cur: Image, base: seq<nat>, ext: seq<nat>, cb: nat, data: seq<byte>,
                   offset: nat, len: nat, c: nat, buf: seq<byte>)
    requires Extended(a, cur, base, ext) && Progress(cur, ext, cb, data, offset) && 2 <= c < 128 && cur.fat[c] == 0
    requires offset < |data| && len == (if |data| - offset > cb then cb else |data| - offset)
    requires |buf| == cb && buf[..len] == data[offset..offset + len]
    ensures Tail(base, ext).Some? ==> Tail(base, ext).value < 128
    ensures var b := Grow(cur, Tail(base, ext), c, buf);
            Extended(a, b, base, ext + [c]) && Progress(b, ext + [c], cb, data, offset + len)
  {
    hide Extended, IsChain, ExtOk;
    ExtendStep(a, cur, base, ext, c, buf);
    ExtendedSizes(a, cur, base, ext);
    ExtendedInUse(a, cur, base, ext, c);
    forall i | 0 <= i < |ext| ensures ext[i] != c { assert ext[i] in ext; }
    StoreData(cur, Grow(cur, Tail(base, ext), c, buf), Tail(base, ext), ext, cb, data, offset, len, c, buf);
  }

  lemma StoreData(cur: Image, b: Image, tail: Option<nat>, ext: seq<nat>, cb: nat, data: seq<byte>,
                  offset: nat, len: nat, c: nat, buf: seq<byte>)
    requires Progress(cur, ext, cb, data, offset) && c < |cur.fat| && c < |cur.data|
    requires offset < |data| && len == (if |data| - offset > cb then cb else |data| - offset)
    requires |buf| == cb && buf[..len] == data[offset..offset + len]
    requires (tail.Some? ==> tail.value < |cur.fat|) && b == Grow(cur, tail, c, buf) && forall i :: 0 <= i < |ext| ==>
               ext[i] != c
    ensures Progress(b, ext + [c], cb, data, offset + len)
  {
    hide Grow;
    GrowData(cur, tail, ext, c, buf);
    GrowOther(cur, tail, c, buf);
    var was := Flatten(cur.data, ext);
    assert |was| == offset && was[..offset] == was;
    assert (was + buf)[..offset + len] == was + buf[..len];
    assert data[..offset + len] == data[..offset] + data[offset..offset + len];
    NextCeil(|ext|, cb, offset, len);
  }

  lemma NextCeil(k: nat, cb: nat, offset: nat, len: nat)
    requires offset == k * cb && 0 < len <= cb
    ensures Ceil(offset + len, cb) == k + 1 && (k + 1) * cb == offset + cb
  {
    assert (k + 1) * cb == offset + cb;
    CeilUnique(offset + len, cb, k + 1);
  }
}

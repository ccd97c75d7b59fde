/** Appending to a chain: filling the last cluster, then growing. */
module FatAppend {
  import opened Prelude
  import opened FatDisk
  import opened FatEntries
  import opened FatChains
  import opened FatVolume
  import opened FatUpdates
  import opened FatViews

  /** Bytes of the last cluster in use. */
  function Used(size: nat, cb: nat): nat
    requires cb > 0
  {
    if size % cb == 0 && size > 0 then cb else size % cb
  }

  lemma UsedBytes(size: nat, cb: nat)
    requires cb > 0 && size > 0
    ensures 0 < Used(size, cb) <= cb && Ceil(size, cb) >= 1 && size == (Ceil(size, cb) - 1) * cb + Used(size, cb)
  {
    var q, m := size / cb, size % cb;
    DivBounds(size, cb);
    assert size == q * cb + m;
    if m == 0 {
      CeilUnique(size, cb, q);
      assert (q - 1) * cb == q * cb - cb;
    } else {
      assert (q + 1) * cb == q * cb + cb;
      CeilUnique(size, cb, q + 1);
    }
  }

  /** The slice that still fits into the last cluster. */
  function Fit(size: nat, cb: nat, n: nat): nat
    requires cb > 0
  {
    var free := cb - Used(size, cb);
    if n > free then free else n
  }

  /** The clusters an append has to take are those of the rest. */
  lemma CeilGrown(size: nat, cb: nat, n: nat)
    requires cb > 0 && size > 0
    ensures Fit(size, cb, n) <= n && Used(size, cb) + Fit(size, cb, n) <= cb
    ensures Ceil(size + n, cb) == Ceil(size, cb) + Ceil(n - Fit(size, cb, n), cb)
    ensures Fit(size, cb, n) < n ==> size + Fit(size, cb, n) == Ceil(size, cb) * cb
  {
    UsedBytes(size, cb);
    var k, u, f := Ceil(size, cb), Used(size, cb), Fit(size, cb, n);
    hide Used, Ceil;
    var rest := n - f;
    assert (k - 1) * cb == k * cb - cb;
    var m := Ceil(rest, cb);
    CeilBounds(rest, cb);
    if rest == 0 {
      CeilUnique(0, cb, 0);
      CeilUnique(size + n, cb, k);
    } else {
      assert (k + m) * cb == k * cb + m * cb;
      CeilUnique(size + n, cb, k + m);
    }
  }

  /** Cluster bytes with `piece` laid over them from `used` on. */
  function Overlay(buf: seq<byte>, used: nat, piece: seq<byte>): (r: seq<byte>)
    requires used + |piece| <= |buf|
    ensures |r| == |buf|
  {
    buf[..used] + piece + buf[used + |piece|..]
  }

  lemma OverlayNothing(buf: seq<byte>, used: nat)
    requires used <= |buf|
    ensures Overlay(buf, used, []) == buf
  {}

  /** Filling the last cluster appends the piece to the bytes of the chain. */
  lemma Filled(data: seq<seq<byte>>, chain: seq<nat>, cb: nat, size: nat, used: nat, piece: seq<byte>)
    requires chain != [] && (forall i :: 0 <= i < |chain| ==> chain[i] < |data| && |data[chain[i]]| == cb)
    requires forall i, j :: 0 <= i < j < |chain| ==> chain[i] != chain[j]
    requires used + |piece| <= cb && size == (|chain| - 1) * cb + used
    ensures var data' := data[Last(chain) := Overlay(data[Last(chain)], used, piece)];
            var f, f' := Flatten(data, chain), Flatten(data', chain);
            |f| == |chain| * cb == |f'| && size + |piece| <= |f| && f'[..size + |piece|] == f[..size] + piece
  {
    var n := |chain| - 1;
    var last := chain[n];
    var data' := data[last := Overlay(data[last], used, piece)];
    FlattenSame(data, data', chain[..n]);
    FlattenLength(data, chain[..n], cb);
    FlattenLength(data, chain, cb);
    FlattenLength(data', chain, cb);
    assert |chain| * cb == n * cb + cb;
    var front := Flatten(data, chain[..n]);
    assert Flatten(data, chain) == front + data[last] && Flatten(data', chain) == front + data'[last];
  }

  /** The bytes of the grown chain are the old content and then the new data. */
  lemma Joined(data: seq<seq<byte>>, chain: seq<nat>, ext: seq<nat>, was: seq<byte>, more: seq<byte>, fit: nat)
    requires forall i :: 0 <= i < |chain| ==> chain[i] < |data|
    requires forall i :: 0 <= i < |ext| ==> ext[i] < |data|
    requires fit <= |more| && |was| + fit <= |Flatten(data, chain)|
             && Flatten(data, chain)[..|was| + fit] == was + more[..fit]
    requires |more| - fit <= |Flatten(data, ext)| && Flatten(data, ext)[..|more| - fit] == more[fit..]
    requires fit < |more| ==> |Flatten(data, chain)| == |was| + fit
    ensures |was| + |more| <= |Flatten(data, chain + ext)| && Flatten(data, chain + ext)[..|was| + |more|] == was + more
  {
    FlattenConcat(data, chain, ext);
    var f, e := Flatten(data, chain), Flatten(data, ext);
    assert more == more[..fit] + more[fit..];
    if fit < |more| {
      assert f == f[..|was| + fit];
      assert (f + e)[..|was| + |more|] == f + e[..|more| - fit];
    } else {
      assert (f + e)[..|was| + |more|] == f[..|was| + fit];
      assert more[..fit] == more;
    }
  }

  /** Overlaying the last cluster and extending the chain touches only the chain and free clusters. */
  lemma GrowthIsRegrown(a: Image, m: Image, b: Image, y: Layout, v: Volume, r: Ref, buf: seq<byte>, ext: seq<nat>)
    requires VolInv(a, y, v) && r in v.files && v.files[r] != [] && Last(v.files[r]) < |a.data|
    requires m == a.(data := a.data[Last(v.files[r]) := buf]) && Extended(m, b, v.files[r], ext)
    ensures Regrown(a, b, v, r, ext) && forall i :: 0 <= i < |ext| ==> ext[i] < 128
    ensures forall i :: 0 <= i < |v.files[r]| ==> v.files[r][i] !in ext
    ensures forall i :: 0 <= i < |v.files[r]| ==> v.files[r][i] < 128 && b.data[v.files[r][i]] == m.data[v.files[r][i]]
  {
    hide VolInv, IsChain;
    var chain := v.files[r];
    assert Last(chain) in chain;
    BaseNotExt(m, b, chain, ext);
    ChainBounds(m.fat, chain);
    forall i | 0 <= i < |chain| ensures chain[i] !in ext {}
  }

  /** An entry whose size does not fit the length of its chain belongs to no sound volume. */
  lemma Oversized(a: Image, y: Layout, v: Volume, r: Ref, chain: seq<nat>)
    requires Wf(a, y) && r.dir in v.dirs && r.dir < 128 && r.idx < Slots(a.data[r.dir])
    requires IsChain(a.fat, chain) && StartOf(SlotAt(a, r)) == chain[0] && !Vacant(SlotAt(a, r))
             && AttrOf(SlotAt(a, r)) == FILE
    requires |chain| != Ceil(SizeOf(SlotAt(a, r)), y.cb)
    ensures !VolInv(a, y, v)
  {
    if VolInv(a, y, v) {
      hide VolInv, IsChain, TailUnused;
      VolParts(a, y, v);
      assert DirOk(a, y, v, r.dir);
      assert r in v.files || r in v.subs;
      if r in v.files {
        assert FileOk(a, y, v, r);
        ChainsMerge(a.fat, chain, v.files[r], 0, 0);
      }
    }
  }

  /** A chain has at most 126 clusters, so the sizes of files fit in 32 bits. */
  lemma ChainLength(fat: seq<nat>, chain: seq<nat>)
    requires IsChain(fat, chain)
    ensures |chain| <= 126
  {
    ChainDistinct(fat, chain);
    DistinctSize(chain);
    var s := set i | 0 <= i < |chain| :: chain[i];
    AllClusters(128);
    SubsetSize(s, Below(128));
  }

  ghost function Below(n: nat): (s: set<nat>)
    ensures forall c: nat :: c in s <==> 2 <= c < n
  {
    if n <= 2 then {} else Below(n - 1) + {n - 1}
  }

  lemma {:induction false} AllClusters(n: nat)
    requires n >= 2
    ensures |Below(n)| == n - 2
  {
    if n > 2 { AllClusters(n - 1); }
  }

  lemma SizeFits(n: nat, cb: nat, k: nat)
    requires 0 < cb <= 130560 && k <= 126 && Ceil(n, cb) == k
    ensures n < 0x1_0000_0000
  {
    CeilBounds(n, cb);
    if k < 126 { Rows(k, 126, cb); }
    assert k * cb <= 126 * cb;
  }

  /** The state between filling the last cluster of r and rewriting its entry: fit bytes of the data went into the last
      cluster of the chain, the clusters `ext` were linked behind it. */
  ghost predicate Growing(a: Image, b: Image, y: Layout, v: Volume, r: Ref, ext: seq<nat>, data: seq<byte>)
    requires VolInv(a, y, v) && r in v.files
  {
    FileFits(a, y, v, r);
    var chain, size := v.files[r], SizeOf(SlotAt(a, r));
    var fit := Fit(size, y.cb, |data|);
    Extended(a.(data := a.data[Last(chain) := Overlay(a.data[Last(chain)], Used(size, y.cb), data[..fit])]), b, chain,
             ext)
  }

  lemma FileFits(a: Image, y: Layout, v: Volume, r: Ref)
    requires VolInv(a, y, v) && r in v.files
    ensures ValidRef(a, v, r) && v.files[r] != [] && 2 <= Last(v.files[r]) < 128 && y.cb > 0 && |a.data| == 128
    ensures IsChain(a.fat, v.files[r]) && FileEntry(SlotAt(a, r), v.files[r], y.cb)
    ensures |a.data[Last(v.files[r])]| == y.cb
    ensures var size := SizeOf(SlotAt(a, r));
            && 0 < Used(size, y.cb) <= y.cb
            && forall n: nat :: Fit(size, y.cb, n) <= n && Used(size, y.cb) + Fit(size, y.cb, n) <= y.cb
  {
    hide IsChain, DirOk, SubOk, Used;
    assert FileOk(a, y, v, r);
    ChainBounds(a.fat, v.files[r]);
    UsedBytes(SizeOf(SlotAt(a, r)), y.cb);
  }

  /** With all the data stored, the grown chain reads as the old content followed by the data. */
  lemma GrownBytes(a: Image, b: Image, y: Layout, v: Volume, r: Ref, ext: seq<nat>, data: seq<byte>)
    requires VolInv(a, y, v) && r in v.files && Growing(a, b, y, v, r, ext, data)
    requires Fit(SizeOf(SlotAt(a, r)), y.cb, |data|) <= |data|
             && Stored(b, ext, y.cb, data[Fit(SizeOf(SlotAt(a, r)), y.cb, |data|)..])
    ensures var size := SizeOf(SlotAt(a, r));
            && (forall i :: 0 <= i < |v.files[r] + ext| ==> (v.files[r] + ext)[i] < |b.data|)
            && size + |data| <= |Flatten(b.data, v.files[r] + ext)|
            && Flatten(b.data, v.files[r] + ext)[..size + |data|] == Content(a, y, v, r) + data
  {
    hide IsChain, VolInv, Used, Fit, Ceil, Extended, Flatten, FileEntry, Growing;
    FileFits(a, y, v, r);
    var chain, size := v.files[r], SizeOf(SlotAt(a, r));
    FilledChain(a, b, y, v, r, ext, data);
    Joined(b.data, chain, ext, Content(a, y, v, r), data, Fit(size, y.cb, |data|));
  }

  lemma FilledChain(a: Image, b: Image, y: Layout, v: Volume, r: Ref, ext: seq<nat>, data: seq<byte>)
    requires VolInv(a, y, v) && r in v.files && Growing(a, b, y, v, r, ext, data)
    ensures var chain, size, was := v.files[r], SizeOf(SlotAt(a, r)), Content(a, y, v, r);
            var fit := Fit(size, y.cb, |data|);
            && |was| == size && fit <= |data| && (forall i :: 0 <= i < |chain| ==> chain[i] < |b.data|)
            && size + fit <= |Flatten(b.data, chain)| && Flatten(b.data, chain)[..size + fit] == was + data[..fit]
            && (fit < |data| ==> |Flatten(b.data, chain)| == size + fit)
  {
    hide IsChain, VolInv, Used, Fit, Ceil, Extended, Flatten, FileEntry;
    FileFits(a, y, v, r);
    var chain, size := v.files[r], SizeOf(SlotAt(a, r));
    var fit, used := Fit(size, y.cb, |data|), Used(size, y.cb);
    var buf := Overlay(a.data[Last(chain)], used, data[..fit]);
    var m := a.(data := a.data[Last(chain) := buf]);
    GrowthIsRegrown(a, m, b, y, v, r, buf, ext);
    ExtendedSizes(m, b, chain, ext);
    FlattenSame(m.data, b.data, chain);
    FilledLast(a, y, v, r, data[..fit]);
    FileSizes(a, y, v, r, |data|);
  }

  lemma FilledLast(a: Image, y: Layout, v: Volume, r: Ref, piece: seq<byte>)
    requires VolInv(a, y, v) && r in v.files
    requires ValidRef(a, v, r) && v.files[r] != [] && Last(v.files[r]) < |a.data| && y.cb > 0
    requires Used(SizeOf(SlotAt(a, r)), y.cb) + |piece| <= |a.data[Last(v.files[r])]|
    ensures var chain, size, was := v.files[r], SizeOf(SlotAt(a, r)), Content(a, y, v, r);
            var data' := a.data[Last(chain) := Overlay(a.data[Last(chain)], Used(size, y.cb), piece)];
            && (forall i :: 0 <= i < |chain| ==> chain[i] < |data'|) && |was| == size
               && size + |piece| <= |Flatten(data', chain)|
            && Flatten(data', chain)[..size + |piece|] == was + piece && |Flatten(data', chain)| == |chain| * y.cb
  {
    hide IsChain, VolInv, Used, Ceil, Flatten;
    VolParts(a, y, v);
    ContentFits(a, y, v, r);
    var chain, size := v.files[r], SizeOf(SlotAt(a, r));
    ChainBounds(a.fat, chain);
    ChainDistinct(a.fat, chain);
    FileSizes(a, y, v, r, 0);
    Filled(a.data, chain, y.cb, size, Used(size, y.cb), piece);
  }

  lemma FileSizes(a: Image, y: Layout, v: Volume, r: Ref, n: nat)
    requires VolInv(a, y, v) && r in v.files
    ensures y.cb > 0 && ValidRef(a, v, r) && |v.files[r]| == Ceil(SizeOf(SlotAt(a, r)), y.cb)
    ensures var size := SizeOf(SlotAt(a, r));
            && size == (|v.files[r]| - 1) * y.cb + Used(size, y.cb)
            && (Fit(size, y.cb, n) < n ==> size + Fit(size, y.cb, n) == |v.files[r]| * y.cb)
            && Fit(size, y.cb, n) <= n && Ceil(size + n, y.cb) == |v.files[r]| + Ceil(n - Fit(size, y.cb, n), y.cb)
  {
    hide IsChain, DirOk, SubOk, Used, Fit, Ceil;
    assert FileOk(a, y, v, r);
    UsedBytes(SizeOf(SlotAt(a, r)), y.cb);
    CeilGrown(SizeOf(SlotAt(a, r)), y.cb, n);
  }

  /** The outcome of an append: the name leads to the longer content, every other name leads where it led. */
  ghost predicate Appended(a: Image, c: Image, y: Layout, v: Volume, v': Volume, r: Ref, key: seq<byte>,
                           data: seq<byte>)
    requires VolInv(a, y, v) && r in v.files && r.dir in v.dirs
  {
    && v'.dirs == v.dirs && v'.subs == v.subs && v'.files.Keys == v.files.Keys
    && VolInv(c, y, v') && SameBut(a, c, y, v, v', v.dirs, r.dir, key)
    && Lookup(c, y, v', r.dir, key) == Some(File(Content(a, y, v, r) + data))
    && OnceKept(a, c, v.dirs, {})
  }

  /** The chain, entry and sizes of a grown file, whether or not all the data found room. */
  lemma GrownChain(a: Image, b: Image, y: Layout, v: Volume, r: Ref, ext: seq<nat>, data: seq<byte>)
    requires VolInv(a, y, v) && r in v.files && Growing(a, b, y, v, r, ext, data)
    ensures Regrown(a, b, v, r, ext) && (forall i :: 0 <= i < |ext| ==> ext[i] < 128)
    ensures IsChain(b.fat, v.files[r] + ext) && (v.files[r] + ext)[0] == v.files[r][0] && |v.files[r] + ext| <= 126
    ensures r.dir in v.dirs && r.dir < 128 && |a.data| == 128 && |b.data| == 128 && b.data[r.dir] == a.data[r.dir]
  {
    hide IsChain, VolInv, Used, Fit, Ceil, Extended, FileEntry;
    FileFits(a, y, v, r);
    var chain, size := v.files[r], SizeOf(SlotAt(a, r));
    var buf := Overlay(a.data[Last(chain)], Used(size, y.cb), data[..Fit(size, y.cb, |data|)]);
    var m := a.(data := a.data[Last(chain) := buf]);
    GrowthIsRegrown(a, m, b, y, v, r, buf, ext);
    ExtendedChain(m, b, chain, ext);
    ChainLength(b.fat, chain + ext);
    RegrownDirs(a, b, y, v, r, ext);
  }

  /** An append that found room for everything. */
  lemma AppendHolds(a: Image, b: Image, y: Layout, v: Volume, r: Ref, ext: seq<nat>, data: seq<byte>, key: seq<byte>)
    requires VolInv(a, y, v) && r in v.files && Growing(a, b, y, v, r, ext, data) && Wf(b, y) && y.cb <= 130560
    requires Fit(SizeOf(SlotAt(a, r)), y.cb, |data|) <= |data|
             && Stored(b, ext, y.cb, data[Fit(SizeOf(SlotAt(a, r)), y.cb, |data|)..])
    requires |ext| == Ceil(|data| - Fit(SizeOf(SlotAt(a, r)), y.cb, |data|), y.cb)
    requires r.dir in v.dirs && r.dir < 128 && Find(a.data[r.dir], key, 0) == Some(r.idx)
    ensures b.data[r.dir] == a.data[r.dir] && SizeOf(SlotAt(a, r)) + |data| < 0x1_0000_0000
    ensures var c := WithSlot(b, r, WithSize(SlotAt(a, r), SizeOf(SlotAt(a, r)) + |data|));
            VolInv(c, y, AddFile(v, r, v.files[r] + ext))
                   && Appended(a, c, y, v, AddFile(v, r, v.files[r] + ext), r, key, data)
  {
    hide IsChain, VolInv, Used, Fit, Ceil, Stored, Growing, Lookup, SameBut, OnceKept, Find, Flatten, Content, Regrown,
         WithSize, WithSlot;
    FileFits(a, y, v, r);
    var chain, size := v.files[r], SizeOf(SlotAt(a, r));
    GrownChain(a, b, y, v, r, ext, data);
    FileSizes(a, y, v, r, |data|);
    SizeFits(size + |data|, y.cb, |chain + ext|);
    assert size > 0;
    GrownBytes(a, b, y, v, r, ext, data);
    GrownSeen(a, b, y, v, r, ext, size + |data|, key);
  }

  /** The size an append records, cut to 32 bits, fits the chain that the clusters at hand allow. */
  predicate Accounted(was: nat, n: nat, cb: nat, room: nat)
    requires cb > 0
  {
    Ceil((was + n) % 0x1_0000_0000, cb) == Ceil(was, cb) + room
  }

  /** The outcome of an append whose recorded size wrapped to a shorter one: the file is cut off there. */
  ghost predicate CutOff(a: Image, c: Image, y: Layout, v: Volume, v': Volume, r: Ref, key: seq<byte>, size: nat)
    requires VolInv(a, y, v) && r in v.files && r.dir in v.dirs
  {
    && v'.dirs == v.dirs && v'.subs == v.subs && v'.files.Keys == v.files.Keys && size < |Content(a, y, v, r)|
    && VolInv(c, y, v') && SameBut(a, c, y, v, v', v.dirs, r.dir, key)
    && Lookup(c, y, v', r.dir, key) == Some(File(Content(a, y, v, r)[..size]))
    && OnceKept(a, c, v.dirs, {})
  }

  /** An append that ran out of clusters, with a size that does not fit the chain: no volume accounts for the result. */
  lemma AppendShort(a: Image, b: Image, y: Layout, v: Volume, r: Ref, ext: seq<nat>, data: seq<byte>, size: nat,
                    v': Volume)
    requires VolInv(a, y, v) && r in v.files && Growing(a, b, y, v, r, ext, data) && Wf(b, y)
    requires size < 0x1_0000_0000 && Ceil(size, y.cb) != |v.files[r]| + |ext| && r.dir in v'.dirs
    ensures ValidRef(a, v, r) && ValidRef(b, v, r) && b.data[r.dir] == a.data[r.dir]
    ensures !VolInv(WithSlot(b, r, WithSize(SlotAt(a, r), size)), y, v')
  {
    hide IsChain, VolInv, Used, Fit, Ceil, Growing, Regrown, WithSize;
    FileFits(a, y, v, r);
    var chain := v.files[r];
    GrownChain(a, b, y, v, r, ext, data);
    var e := WithSize(SlotAt(a, r), size);
    WithSizeFields(SlotAt(a, r), size);
    SlotFrame(b, r, e, r);
    WithSlotWf(b, y, r, e);
    Oversized(WithSlot(b, r, e), y, v', r, chain + ext);
  }

  /** An append that ran out of clusters, with a size that fits the chain all the same. The size has wrapped: it is
      below the old one. */
  lemma ShortSize(was: nat, n: nat, cb: nat, chain: nat, ext: nat)
    requires cb > 0 && was > 0 && n < 0x1_0000_0000 && was < 0x1_0000_0000 && chain == Ceil(was, cb)
    requires ext < Ceil(n - Fit(was, cb, n), cb) && Fit(was, cb, n) <= n
             && Ceil((was + n) % 0x1_0000_0000, cb) == chain + ext
    ensures 0 < (was + n) % 0x1_0000_0000 < was
  {
    hide Ceil, Fit;
    CeilGrown(was, cb, n);
    var size := (was + n) % 0x1_0000_0000;
    CeilBounds(was, cb);
    if size == 0 { CeilUnique(0, cb, 0); }
  }

  lemma AppendCutOff(a: Image, b: Image, y: Layout, v: Volume, r: Ref, ext: seq<nat>, data: seq<byte>, key: seq<byte>,
                     size: nat)
    requires VolInv(a, y, v) && r in v.files && Growing(a, b, y, v, r, ext, data) && Wf(b, y) && ValidRef(a, v, r)
    requires 0 < size < SizeOf(SlotAt(a, r)) && Ceil(size, y.cb) == |v.files[r]| + |ext|
    requires r.dir in v.dirs && r.dir < 128 && Find(a.data[r.dir], key, 0) == Some(r.idx)
    ensures b.data[r.dir] == a.data[r.dir]
    ensures var c := WithSlot(b, r, WithSize(SlotAt(a, r), size));
            VolInv(c, y, AddFile(v, r, v.files[r] + ext))
                   && CutOff(a, c, y, v, AddFile(v, r, v.files[r] + ext), r, key, size)
  {
    hide IsChain, VolInv, Used, Fit, Ceil, Growing, Lookup, SameBut, OnceKept, Find, Flatten, Content, Regrown,
         WithSize, WithSlot;
    FileFits(a, y, v, r);
    GrownChain(a, b, y, v, r, ext, data);
    GrownSeen(a, b, y, v, r, ext, size, key);
    FilledChain(a, b, y, v, r, ext, data);
    var f, was := Flatten(b.data, v.files[r]), Content(a, y, v, r);
    FlattenConcat(b.data, v.files[r], ext);
    CutPrefix(f, Flatten(b.data, ext), was, data[..Fit(SizeOf(SlotAt(a, r)), y.cb, |data|)], size);
  }

  lemma CutPrefix(f: seq<byte>, g: seq<byte>, was: seq<byte>, piece: seq<byte>, size: nat)
    requires |was| + |piece| <= |f| && f[..|was| + |piece|] == was + piece && size <= |was|
    ensures (f + g)[..size] == was[..size]
  {
    assert (f + g)[..size] == f[..|was| + |piece|][..size];
  }
}

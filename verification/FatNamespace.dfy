/** The file system its callers see: a map from directory and name to file content or directory. */
module FatNamespace {
  import opened Prelude
  import opened FatDisk
  import opened FatEntries
  import opened FatNames
  import opened FatChains
  import opened FatVolume
  import opened FatUpdates
  import opened FatViews
  import opened FatAppend
  import opened FatPaths
  import opened FatFormat
  import opened Fat32

  /** What every name of every directory leads to. The names in `doubled` may have more than one entry. */
  datatype Names = Names(dirs: set<nat>, look: imap<(nat, seq<byte>), Node>, doubled: iset<(nat, seq<byte>)>) {
    ghost function At(d: nat, key: seq<byte>): Option<Node> {
      if (d, key) in look then Some(look[(d, key)]) else None
    }
  }

  /** The volume v on image a shows exactly these names. */
  ghost predicate Shows(a: Image, y: Layout, v: Volume, n: Names) {
    && VolInv(a, y, v) && n.dirs == v.dirs
    && (forall d, k :: d in v.dirs ==> Lookup(a, y, v, d, k) == n.At(d, k))
    && (forall d, k :: (d, k) in n.look ==> d in n.dirs)
    && (forall d, k :: d in v.dirs && d < |a.data| && Plain(k) && (d, k) !in n.doubled ==> Once(a.data[d], k))
  }

  /** The names of a volume. */
  ghost function NamesOf(a: Image, y: Layout, v: Volume): Names
    requires VolInv(a, y, v)
  {
    Names(v.dirs,
          imap x: (nat, seq<byte>) | x.0 in v.dirs
              && Lookup(a, y, v, x.0, x.1).Some? :: Lookup(a, y, v, x.0, x.1).value,
          iset x: (nat, seq<byte>) | x.0 < |a.data| && !Once(a.data[x.0], x.1))
  }

  /** Every sound volume shows its names, and any names it shows are those. */
  lemma NamesShown(a: Image, y: Layout, v: Volume, n: Names)
    requires VolInv(a, y, v)
    ensures Shows(a, y, v, NamesOf(a, y, v))
    ensures Shows(a, y, v, n) ==> n.dirs == NamesOf(a, y, v).dirs && n.look == NamesOf(a, y, v).look
  {
    hide VolInv, Lookup, Once;
    var m := NamesOf(a, y, v);
    if Shows(a, y, v, n) {
      forall x: (nat, seq<byte>) ensures x in n.look <==> x in m.look { ShownAt(a, y, v, n, x); }
      forall x: (nat, seq<byte>) | x in n.look ensures n.look[x] == m.look[x] { ShownAt(a, y, v, n, x); }
    }
  }

  lemma ShownAt(a: Image, y: Layout, v: Volume, n: Names, x: (nat, seq<byte>))
    requires Shows(a, y, v, n)
    ensures x in n.look <==> x.0 in v.dirs && Lookup(a, y, v, x.0, x.1).Some?
    ensures x in n.look ==> n.look[x] == Lookup(a, y, v, x.0, x.1).value
  {
    hide VolInv, Lookup, Once;
    assert x == (x.0, x.1);
    if x.0 in v.dirs { assert Lookup(a, y, v, x.0, x.1) == n.At(x.0, x.1); }
  }

  // ---------- paths ----------

  /** What the path p, starting in directory d, leads to. */
  ghost function Go(n: Names, d: nat, p: seq<byte>): Option<Node>
    decreases |p|
  {
    if p == [] then None else
      var x := n.At(d, Canon(Seg(p)));
      Shorter(p);
      if x.None? || After(p) == [] then x
      else if x.value.File? then None
      else Go(n, x.value.cluster, Skip(After(p)))
  }

  /** The directory a path leads to. */
  ghost function Where(n: Names, root: nat, path: seq<byte>): Option<nat> {
    if path == [SLASH] || path == [] || path == [DOT] then Some(root)
    else
      var x := Go(n, root, Skip(path));
      if x.Some? && x.value.Dir? then Some(x.value.cluster) else None
  }

  lemma {:induction false} GoIsWalk(a: Image, y: Layout, v: Volume, n: Names, d: nat, p: seq<byte>)
    requires Shows(a, y, v, n) && d in v.dirs
    ensures Go(n, d, p) == Walk(a, y, v, d, p)
    ensures Go(n, d, p).Some? && Go(n, d, p).value.Dir? ==> Go(n, d, p).value.cluster in v.dirs
    decreases |p|
  {
    hide VolInv, Lookup, Canon, Once;
    if p != [] {
      var x := Lookup(a, y, v, d, Canon(Seg(p)));
      LookupDir(a, y, v, d, Canon(Seg(p)));
      Shorter(p);
      if x.Some? && x.value.Dir? && After(p) != [] { GoIsWalk(a, y, v, n, x.value.cluster, Skip(After(p))); }
    }
  }

  // ---------- operations ----------

  datatype Op =
    | Write(dir: seq<byte>, name: seq<byte>, data: seq<byte>)
    | Append(dir: seq<byte>, name: seq<byte>, data: seq<byte>)
    | Delete(dir: seq<byte>, name: seq<byte>)
    | MakeDir(dir: seq<byte>, name: seq<byte>)
  {
    /** New entries get names in directory form. */
    predicate Named() { !Delete? ==> LiveName(name) && (MakeDir? || |data| < 0x1_0000_0000) }
  }

  /** An operation fails, changing no name, or is done. A new entry may be hidden by an older one of the same name, or
      have found no slot; a deleted one may have had another behind it; a new directory has a cluster. */
  datatype Outcome = Failed | Done(hidden: bool, behind: Option<Node>, cluster: nat)

  /** A new entry. */
  ghost function Enter(n: Names, d: nat, key: seq<byte>, x: Node, hidden: bool): Names {
    Names(n.dirs, if hidden then n.look else n.look[(d, key) := x],
          if (d, key) in n.look then n.doubled + iset{(d, key)} else n.doubled)
  }

  /** The names of the given directories only. */
  ghost function Within(n: Names, dirs: set<nat>): Names {
    Names(dirs, imap x | x in n.look && x.0 in dirs :: n.look[x], iset x | x in n.doubled && x.0 in dirs)
  }

  /** An entry gone, with the directory it named. */
  ghost function Remove(n: Names, d: nat, key: seq<byte>, behind: Option<Node>): Names {
    var x := n.At(d, key);
    var m := Within(n, if x.Some? && x.value.Dir? then n.dirs - {x.value.cluster} else n.dirs);
    m.(look := if behind.Some? then m.look[(d, key) := behind.value] else m.look - {(d, key)})
  }

  /** What an operation does to the names. */
  ghost function Effect(n: Names, root: nat, op: Op, out: Outcome): Names {
    var d := Where(n, root, op.dir);
    if d.None? then n else EffectIn(n, d.value, op, out)
  }

  ghost function EffectIn(n: Names, d: nat, op: Op, out: Outcome): Names {
    if out.Failed? then n
    else match op
      case Write(_, name, data) => Enter(n, d, name, File(data), out.hidden)
      case Append(_, name, data) =>
        var x := n.At(d, Canon(name));
        if x.None? then Enter(n, d, name, File(data), out.hidden)
        else if x.value.File? then n.(look := n.look[(d, Canon(name)) := File(x.value.content + data)])
        else n
      case Delete(_, name) => Remove(n, d, Canon(name), out.behind)
      case MakeDir(_, name) => Enter(n.(dirs := n.dirs + {out.cluster}), d, name, Dir(out.cluster), out.hidden)
  }

  /** A sequence of operations. */
  ghost function Fold(n: Names, root: nat, ops: seq<Op>, outs: seq<Outcome>): Names
    requires |outs| == |ops|
    decreases |ops|
  {
    if ops == [] then n
    else
      var k := |ops| - 1;
      Effect(Fold(n, root, ops[..k], outs[..k]), root, ops[k], outs[k])
  }

  /** The free clusters or the slots of the directory do not suffice for a new file. */
  ghost predicate Crowded(a: Image, y: Layout, d: nat, size: nat) {
    d < |a.data| && |a.fat| >= 128 && y.cb > 0
        && (|FreeClusters(a.fat)| < Ceil(size, y.cb) || FirstVacant(a.data[d], 0).None?)
  }

  /** The new entry can be hidden: another one has the name, or could if it is a dot name. */
  ghost predicate Taken(n: Names, d: nat, name: seq<byte>) { (d, name) in n.look || !Plain(name) }

  /** When an operation fails, and what can become of it when it does not. */
  ghost predicate Justified(a: Image, y: Layout, n: Names, op: Op, out: Outcome) {
    var d := Where(n, y.root, op.dir);
    if d.None? then out.Failed? else JustifiedIn(a, y, n, d.value, op, out)
  }

  ghost predicate JustifiedIn(a: Image, y: Layout, n: Names, d: nat, op: Op, out: Outcome) {
    match op
    case Write(_, name, data) => Fresh(a, y, n, d, name, data, out)
    case Append(_, name, data) =>
      var x := n.At(d, Canon(name));
      if x.None? then Fresh(a, y, n, d, name, data, out)
      else out.Failed? <==> x.value.Dir? || data == [] || Short(a, y, |x.value.content|, |data|)
    case Delete(_, name) =>
      && (out.Failed? <==> n.At(d, Canon(name)).None?)
      && (out.Done? && (d, Canon(name)) !in n.doubled ==> out.behind.None?)
    case MakeDir(_, name) =>
      && (out.Failed? <==> |a.fat| >= 128 && FreeClusters(a.fat) == {})
      && (out.Done? ==> out.cluster !in n.dirs)
      && (out.Done? && out.hidden ==> Taken(n, d, name) || (d < |a.data| && FirstVacant(a.data[d], 0).None?))
  }

  /** A new file fails exactly if there is nothing to write or no room for it. */
  ghost predicate Fresh(a: Image, y: Layout, n: Names, d: nat, name: seq<byte>, data: seq<byte>, out: Outcome) {
    && (out.Failed? <==> data == [] || Crowded(a, y, d, |data|))
    && (out.Done? && out.hidden ==> Taken(n, d, name))
  }

  /** The free clusters are too few for an append. */
  ghost predicate Short(a: Image, y: Layout, was: nat, more: nat) {
    |a.fat| >= 128 && y.cb > 0 && Ceil(was + more, y.cb) > Ceil(was, y.cb) + |FreeClusters(a.fat)|
  }

  /** One moment of a run: the device, its volume, and the names it shows. */
  datatype Moment = Moment(a: Image, v: Volume, n: Names)

  /** A run told as a fold: the names of each moment are the effect of the operation on the names before, and each
      outcome is justified by the device it met. */
  ghost predicate Told(y: Layout, run: seq<Moment>, ops: seq<Op>, outs: seq<Outcome>) {
    && |run| == |ops| + 1 && |outs| == |ops|
    && (forall i :: 0 <= i < |run| ==> Shows(run[i].a, y, run[i].v, run[i].n))
    && (forall i :: 0 <= i < |ops| ==>
          run[i + 1].n == Effect(run[i].n, y.root, ops[i], outs[i])
              && Justified(run[i].a, y, run[i].n, ops[i], outs[i]))
  }

  lemma ToldMore(y: Layout, run: seq<Moment>, ops: seq<Op>, outs: seq<Outcome>, m: Moment, op: Op, out: Outcome)
    requires Told(y, run, ops, outs) && Shows(m.a, y, m.v, m.n)
    requires m.n == Effect(run[|ops|].n, y.root, op, out) && Justified(run[|ops|].a, y, run[|ops|].n, op, out)
    ensures Told(y, run + [m], ops + [op], outs + [out])
  {
    hide Shows, Effect, Justified;
  }

  /** The names at the end are the fold of the operations over the names at the start. */
  lemma {:induction false} ToldIsFold(y: Layout, run: seq<Moment>, ops: seq<Op>, outs: seq<Outcome>)
    requires Told(y, run, ops, outs)
    ensures run[|ops|].n == Fold(run[0].n, y.root, ops, outs)
    decreases |ops|
  {
    hide Shows, Effect, Justified;
    if ops != [] {
      var k := |ops| - 1;
      ToldIsFold(y, run[..|ops|], ops[..k], outs[..k]);
    }
  }

  // ---------- what the driver does is that effect ----------

  /** The directory the driver finds for a path. */
  lemma WhereIs(a: Image, y: Layout, v: Volume, n: Names, path: seq<byte>)
    requires Shows(a, y, v, n) && VolInv(a, y, v) && y.root in v.dirs
    ensures Where(n, y.root, path) ==
            if path == [SLASH] || path == [] || path == [DOT] then Some(y.root)
            else
              var x := PathNode(a, y, v, y.root, path);
              if x.Some? && x.value.Dir? then Some(x.value.cluster) else None
    ensures Where(n, y.root, path).Some? ==>
              Where(n, y.root, path).value in v.dirs && 2 <= Where(n, y.root, path).value < 128
  {
    hide Shows, Walk, Go;
    GoIsWalk(a, y, v, n, y.root, Skip(path));
    var d := Where(n, y.root, path);
    if d.Some? { DirTails(a, y, v, d.value); }
  }

  /** A name that leads nowhere and is no dot name has no entry. */
  lemma PlainFound(a: Image, y: Layout, v: Volume, d: nat, key: seq<byte>)
    requires VolInv(a, y, v) && d in v.dirs && d < |a.data| && Plain(key)
    ensures Find(a.data[d], key, 0).Some? <==> Lookup(a, y, v, d, key).Some?
  {
    hide TailUnused, IsChain, VolInv, FatEntries.StartOf, Content;
    VolParts(a, y, v);
    assert DirOk(a, y, v, d);
    var f := Find(a.data[d], key, 0);
    if f.Some? {
      var e := EntryAt(a.data[d], f.value);
      assert Matches(e, key);
      assert e[0] == NameOf(e)[0];
    }
  }

  lemma CanonPlain(name: seq<byte>)
    ensures Plain(Canon(name))
  {
    CanonHasNoLeadingDot(name);
  }

  lemma HiddenFound(dir: seq<byte>, key: seq<byte>, i: nat)
    requires TailUnused(dir) && Hidden(dir, key, i)
    ensures Find(dir, key, 0).Some?
  {
    FindIsFirst(dir, key, 0);
  }

  /** A file written, or not. */
  lemma FileStep(a: Image, c: Image, y: Layout, v: Volume, v': Volume, n: Names, d: nat, r: Ref, ext: seq<nat>,
                 name: seq<byte>, data: seq<byte>)
    requires Shows(a, y, v, n) && VolInv(c, y, v') && d in v.dirs && d < |a.data| && d < |c.data|
    requires FileMade(a, c, y, v, v', d, r, ext, name, data)
    ensures v' == v ==> Shows(c, y, v', n)
    ensures v' != v ==>
              && Shows(c, y, v', Enter(n, d, name, File(data), Hidden(a.data[d], name, r.idx)))
              && (Hidden(a.data[d], name, r.idx) ==> Taken(n, d, name))
  {
    hide VolInv, Lookup, Find, Hidden, Once, FirstVacant, TailUnused, OnlyTook;
    DirCounts(a, c, y, v, v');
    if v' != v {
      DirTails(a, y, v, d);
      if Plain(name) { PlainFound(a, y, v, d, name); }
      if Hidden(a.data[d], name, r.idx) { HiddenFound(a.data[d], name, r.idx); }
    }
  }

  lemma DirCounts(a: Image, c: Image, y: Layout, v: Volume, v': Volume)
    requires VolInv(a, y, v) && VolInv(c, y, v')
    ensures |a.data| == 128 && |c.data| == 128
  {}

  /** A directory made. */
  lemma DirStep(a: Image, b: Image, y: Layout, v: Volume, v': Volume, n: Names, d: nat, slot: Option<nat>, c: nat,
                name: seq<byte>)
    requires Shows(a, y, v, n) && d in v.dirs && d < |a.data| && c !in v.dirs && slot == FirstVacant(a.data[d], 0)
    requires DirMade(a, b, y, v, v', d, slot, c, name)
    ensures var hidden := slot.None? || Hidden(a.data[d], name, slot.value);
            && Shows(b, y, v', Enter(n.(dirs := n.dirs + {c}), d, name, Dir(c), hidden))
            && (hidden ==> Taken(n, d, name) || slot.None?)
  {
    hide VolInv, Lookup, Find, Hidden, Once, FirstVacant, TailUnused, FreshDir;
    DirCounts(a, b, y, v, v');
    DirTails(a, y, v, d);
    if Plain(name) { PlainFound(a, y, v, d, name); }
    if slot.Some? && Hidden(a.data[d], name, slot.value) { HiddenFound(a.data[d], name, slot.value); }
    forall k | Plain(k) ensures Once(b.data[c], k) { FreshDirOnce(b.data[c], c, k); }
  }

  /** An entry deleted. */
  lemma GoneStep(a: Image, c: Image, y: Layout, v: Volume, v': Volume, n: Names, r: Ref, key: seq<byte>)
    returns (behind: Option<Node>)
    requires Shows(a, y, v, n) && r.dir in v.dirs && r.dir < |a.data| && Plain(key)
             && Find(a.data[r.dir], key, 0) == Some(r.idx)
    requires Deleted(a, c, y, v, v', r, key)
    ensures Shows(c, y, v', Remove(n, r.dir, key, behind)) && n.At(r.dir, key).Some?
    ensures (r.dir, key) !in n.doubled ==> behind.None?
  {
    hide VolInv, Find, Once, TailUnused, Content, Lookup;
    DirCounts(a, c, y, v, v');
    GoneNode(a, y, v, r, key);
    behind := if r.dir in v'.dirs then Lookup(c, y, v', r.dir, key) else None;
  }

  lemma GoneNode(a: Image, y: Layout, v: Volume, r: Ref, key: seq<byte>)
    requires VolInv(a, y, v) && r.dir in v.dirs && r.dir < |a.data| && Find(a.data[r.dir], key, 0) == Some(r.idx)
    ensures r in v.files ==> Lookup(a, y, v, r.dir, key) == Some(File(Content(a, y, v, r)))
    ensures r !in v.files && r in v.subs ==> Lookup(a, y, v, r.dir, key) == Some(Dir(v.subs[r]))
  {
    hide VolInv, Find, Content;
    assert Ref(r.dir, r.idx) == r;
  }

  /** A file that grew. */
  lemma GrowStep(a: Image, c: Image, y: Layout, v: Volume, v': Volume, n: Names, r: Ref, key: seq<byte>,
                 data: seq<byte>)
    requires Shows(a, y, v, n) && r in v.files && r.dir in v.dirs && r.dir < |a.data|
             && Find(a.data[r.dir], key, 0) == Some(r.idx)
    requires Appended(a, c, y, v, v', r, key, data)
    ensures n.At(r.dir, key) == Some(File(Content(a, y, v, r)))
    ensures Shows(c, y, v', n.(look := n.look[(r.dir, key) := File(Content(a, y, v, r) + data)]))
  {
    hide VolInv, Find, Once, Content, Lookup;
    DirCounts(a, c, y, v, v');
    GoneNode(a, y, v, r, key);
  }

  /** The empty volume shows no names. */
  lemma EmptyShows(a: Image, y: Layout)
    requires VolInv(a, y, EMPTY)
    ensures Shows(a, y, EMPTY, Names({2}, imap[], iset{}))
  {
    hide Find, TailUnused;
    assert DirOk(a, y, EMPTY, 2);
  }
}

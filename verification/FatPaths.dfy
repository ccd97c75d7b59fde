/** Paths: how they are cut into components, and where they lead. */
module FatPaths {
  import opened Prelude
  import opened FatDisk
  import opened FatEntries
  import opened FatNames
  import opened FatChains
  import opened FatVolume
  import opened FatUpdates
  import opened FatViews

  const SLASH: byte := 47

  /** Length of the first component: up to a slash, the end, or n characters. */
  function SegLen(p: seq<byte>, n: nat): (k: nat)
    ensures k <= |p| && k <= n && SLASH !in p[..k] && (k < |p| && k < n ==> p[k] == SLASH)
  {
    if p == [] || p[0] == SLASH || n == 0 then 0 else 1 + SegLen(p[1..], n - 1)
  }

  lemma SegLenStep(p: seq<byte>, n: nat)
    requires p != [] && p[0] != SLASH && n > 0
    ensures SegLen(p, n) == 1 + SegLen(p[1..], n - 1)
  {}

  lemma SegLenDone(p: seq<byte>, n: nat)
    requires p == [] || p[0] == SLASH || n == 0
    ensures SegLen(p, n) == 0
  {}

  /** The buffers for one component hold fifteen characters. */
  function Seg(p: seq<byte>): seq<byte> { p[..SegLen(p, 15)] }
  function After(p: seq<byte>): seq<byte> { p[SegLen(p, 15)..] }
  function Skip(p: seq<byte>): seq<byte> { if p != [] && p[0] == SLASH then p[1..] else p }

  /** Every component is followed by a shorter path. */
  lemma Shorter(p: seq<byte>)
    requires p != []
    ensures |Skip(After(p))| < |p| && (Seg(p) == [] <==> p[0] == SLASH) && |After(p)| <= |p|
  {}

  /** A lookup that leads to a directory leads to a live one. */
  lemma LookupDir(a: Image, y: Layout, v: Volume, d: nat, key: seq<byte>)
    requires VolInv(a, y, v) && d in v.dirs
    ensures var n := Lookup(a, y, v, d, key); n.Some? && n.value.Dir? ==>
              n.value.cluster in v.dirs && 2 <= n.value.cluster < 128
  {
    hide Content, Find, IsChain, DirOk;
    assert forall r :: r in v.subs ==> SubOk(a, y, v, r);
    var n := Lookup(a, y, v, d, key);
    if n.Some? && n.value.Dir? {
      assert n.value.cluster in v.dirs;
      DirTails(a, y, v, n.value.cluster);
    }
  }

  /** What the path p, starting in directory d, leads to for `GetFileEntry`. */
  ghost function Walk(a: Image, y: Layout, v: Volume, d: nat, p: seq<byte>): Option<Node>
    requires VolInv(a, y, v) && d in v.dirs
    decreases |p|
  {
    if p == [] then None else
      var n := Lookup(a, y, v, d, Canon(Seg(p)));
      LookupDir(a, y, v, d, Canon(Seg(p)));
      Shorter(p);
      if n.None? || After(p) == [] then n
      else if n.value.File? then None
      else Walk(a, y, v, n.value.cluster, Skip(After(p)))
  }

  /** The node of a path: from the root if it begins with a slash, from directory d otherwise. */
  ghost function PathNode(a: Image, y: Layout, v: Volume, d: nat, path: seq<byte>): Option<Node>
    requires VolInv(a, y, v) && d in v.dirs
  {
    Walk(a, y, v, if path != [] && path[0] == SLASH then y.root else d, Skip(path))
  }

  /** The directory p leads to for `EnsureDirectory`, which stops at an empty component. */
  ghost function DirWalk(a: Image, y: Layout, v: Volume, d: nat, p: seq<byte>): Option<nat>
    requires VolInv(a, y, v) && d in v.dirs
    decreases |p|
  {
    if Ends(p) then Some(d) else
      var n := Lookup(a, y, v, d, Canon(Seg(p)));
      LookupDir(a, y, v, d, Canon(Seg(p)));
      Shorter(p);
      if n.Some? && n.value.Dir? then DirWalk(a, y, v, n.value.cluster, Skip(After(p))) else None
  }

  predicate Ends(p: seq<byte>) { p == [] || p[0] == SLASH }

  /** The directory in which the walk first misses a component, if it is not stopped by a file before. */
  ghost function Miss(a: Image, y: Layout, v: Volume, d: nat, p: seq<byte>): Option<nat>
    requires VolInv(a, y, v) && d in v.dirs
    decreases |p|
  {
    if Ends(p) then None else
      var n := Lookup(a, y, v, d, Canon(Seg(p)));
      LookupDir(a, y, v, d, Canon(Seg(p)));
      Shorter(p);
      if n.None? then Some(d) else if n.value.File? then None else Miss(a, y, v, n.value.cluster, Skip(After(p)))
  }

  /** The components of a path, up to an empty one. */
  function Components(p: seq<byte>): nat
    decreases |p|
  {
    if Ends(p) then 0 else Shorter(p); 1 + Components(Skip(After(p)))
  }

  /** The directories that have to be made for p to lead to one: from the first missing component on, all of them. */
  ghost function Needed(a: Image, y: Layout, v: Volume, d: nat, p: seq<byte>): nat
    requires VolInv(a, y, v) && d in v.dirs
    decreases |p|
  {
    if Ends(p) then 0 else
      var n := Lookup(a, y, v, d, Canon(Seg(p)));
      LookupDir(a, y, v, d, Canon(Seg(p)));
      Shorter(p);
      if n.None? then Components(p) else if n.value.File? then 0 else Needed(a, y, v, n.value.cluster, Skip(After(p)))
  }

  /** Something has to be made exactly when the walk misses a component. */
  lemma {:induction false} NeededIff(a: Image, y: Layout, v: Volume, d: nat, p: seq<byte>)
    requires VolInv(a, y, v) && d in v.dirs
    ensures Needed(a, y, v, d, p) > 0 <==> Miss(a, y, v, d, p).Some?
    ensures Miss(a, y, v, d, p).Some? ==> DirWalk(a, y, v, d, p).None? && Miss(a, y, v, d, p).value in v.dirs
    ensures Needed(a, y, v, d, p) <= Components(p)
    decreases |p|
  {
    hide VolInv, Lookup, Canon;
    if !Ends(p) {
      LookupDir(a, y, v, d, Canon(Seg(p)));
      Shorter(p);
      var n := Lookup(a, y, v, d, Canon(Seg(p)));
      if n.Some? && n.value.Dir? { NeededIff(a, y, v, n.value.cluster, Skip(After(p))); }
    }
  }

  /** Every component is stored under the name it is looked up by. */
  ghost predicate Findable(p: seq<byte>)
    decreases |p|
  {
    Ends(p) || (Canon(Seg(p)) == To83(Seg(p)) && (Shorter(p); Findable(Skip(After(p)))))
  }

  /** Every component that has to be made is stored under the name it is looked up by. */
  ghost predicate Lasting(a: Image, y: Layout, v: Volume, d: nat, p: seq<byte>)
    requires VolInv(a, y, v) && d in v.dirs
    decreases |p|
  {
    if Ends(p) then true else
      var n := Lookup(a, y, v, d, Canon(Seg(p)));
      LookupDir(a, y, v, d, Canon(Seg(p)));
      Shorter(p);
      if n.None? then Findable(p) else n.value.File? || Lasting(a, y, v, n.value.cluster, Skip(After(p)))
  }

  /** The walk along p from d passes directory e with q still to go. */
  ghost predicate Leads(a: Image, y: Layout, v: Volume, d: nat, p: seq<byte>, e: nat, q: seq<byte>)
    requires VolInv(a, y, v) && d in v.dirs
    decreases |p|
  {
    || (d == e && p == q)
    || (!Ends(p) &&
          var n := Lookup(a, y, v, d, Canon(Seg(p)));
          LookupDir(a, y, v, d, Canon(Seg(p)));
          Shorter(p);
          n.Some? && n.value.Dir? && Leads(a, y, v, n.value.cluster, Skip(After(p)), e, q))
  }

  lemma {:induction false} LeadsOn(a: Image, y: Layout, v: Volume, d: nat, p: seq<byte>, e: nat, q: seq<byte>)
    requires VolInv(a, y, v) && d in v.dirs && e in v.dirs && Leads(a, y, v, d, p, e, q)
    ensures DirWalk(a, y, v, d, p) == DirWalk(a, y, v, e, q) && Miss(a, y, v, d, p) == Miss(a, y, v, e, q)
    ensures Needed(a, y, v, d, p) == Needed(a, y, v, e, q) && (Lasting(a, y, v, d, p) <==> Lasting(a, y, v, e, q))
    decreases |p|
  {
    hide VolInv, Lookup;
    if !(d == e && p == q) {
      LookupDir(a, y, v, d, Canon(Seg(p)));
      Shorter(p);
      LeadsOn(a, y, v, Lookup(a, y, v, d, Canon(Seg(p))).value.cluster, Skip(After(p)), e, q);
    }
  }

  lemma {:induction false} LeadsStep(a: Image, y: Layout, v: Volume, d: nat, p: seq<byte>, e: nat, q: seq<byte>, c: nat)
    requires VolInv(a, y, v) && d in v.dirs && e in v.dirs && Leads(a, y, v, d, p, e, q)
    requires !Ends(q) && Lookup(a, y, v, e, Canon(Seg(q))) == Some(Dir(c))
    ensures c in v.dirs && Leads(a, y, v, d, p, c, Skip(After(q)))
    decreases |p|
  {
    hide VolInv, Lookup;
    LookupDir(a, y, v, d, Canon(Seg(p)));
    LookupDir(a, y, v, e, Canon(Seg(q)));
    if d == e && p == q {
      assert Leads(a, y, v, c, Skip(After(q)), c, Skip(After(q)));
    } else {
      Shorter(p);
      LeadsStep(a, y, v, Lookup(a, y, v, d, Canon(Seg(p))).value.cluster, Skip(After(p)), e, q, c);
    }
  }

  /** Names that led to something lead to the same thing. */
  ghost predicate Grows(a: Image, b: Image, y: Layout, v: Volume, v': Volume)
    requires VolInv(a, y, v) && VolInv(b, y, v') && v.dirs <= v'.dirs
  {
    forall d, k :: d in v.dirs && Lookup(a, y, v, d, k).Some? ==> Lookup(b, y, v', d, k) == Lookup(a, y, v, d, k)
  }

  lemma {:induction false} LeadsGrows(a: Image, b: Image, y: Layout, v: Volume, v': Volume, d: nat, p: seq<byte>,
                                      e: nat, q: seq<byte>)
    requires VolInv(a, y, v) && VolInv(b, y, v') && v.dirs <= v'.dirs && Grows(a, b, y, v, v')
    requires d in v.dirs && Leads(a, y, v, d, p, e, q)
    ensures Leads(b, y, v', d, p, e, q)
    decreases |p|
  {
    hide VolInv, Lookup;
    if !(d == e && p == q) {
      LookupDir(a, y, v, d, Canon(Seg(p)));
      Shorter(p);
      LeadsGrows(a, b, y, v, v', Lookup(a, y, v, d, Canon(Seg(p))).value.cluster, Skip(After(p)), e, q);
    }
  }

  /** Seen from the old directories nothing changed: every walk goes as before. */
  lemma {:induction false} WalkSame(a: Image, b: Image, y: Layout, v: Volume, v': Volume, d: nat, p: seq<byte>)
    requires VolInv(a, y, v) && VolInv(b, y, v') && v.dirs <= v'.dirs && SameView(a, b, y, v, v', v.dirs) && d in v.dirs
    ensures DirWalk(b, y, v', d, p) == DirWalk(a, y, v, d, p) && Miss(b, y, v', d, p) == Miss(a, y, v, d, p)
    decreases |p|
  {
    hide VolInv, Lookup;
    if !Ends(p) {
      LookupDir(a, y, v, d, Canon(Seg(p)));
      Shorter(p);
      var n := Lookup(a, y, v, d, Canon(Seg(p)));
      if n.Some? && n.value.Dir? { WalkSame(a, b, y, v, v', n.value.cluster, Skip(After(p))); }
    }
  }

  // ---------- a walk does not come back to a directory ----------

  /** Directory d lies n levels below the root. */
  ghost predicate AtLevel(v: Volume, root: nat, d: nat, n: nat)
    decreases n
  {
    if n == 0 then d == root else exists r :: r in v.subs && v.subs[r] == d && AtLevel(v, root, r.dir, n - 1)
  }

  lemma NotSub(a: Image, y: Layout, v: Volume)
    requires VolInv(a, y, v)
    ensures forall r :: r in v.subs ==> v.subs[r] != y.root
  {
    assert forall r :: r in v.subs ==> SubOk(a, y, v, r);
  }

  /** A directory has one parent, and the root none. */
  lemma {:induction false} LevelUnique(a: Image, y: Layout, v: Volume, d: nat, i: nat, j: nat)
    requires VolInv(a, y, v) && AtLevel(v, y.root, d, i) && AtLevel(v, y.root, d, j)
    ensures i == j
    decreases i
  {
    hide VolInv;
    NotSub(a, y, v);
    if i > 0 && j > 0 {
      var r :| r in v.subs && v.subs[r] == d && AtLevel(v, y.root, r.dir, i - 1);
      SubsInjective(a, y, v, r);
      LevelUnique(a, y, v, r.dir, i - 1, j - 1);
    }
  }

  lemma LookupBelow(a: Image, y: Layout, v: Volume, d: nat, key: seq<byte>, n: nat)
    requires VolInv(a, y, v) && d in v.dirs && AtLevel(v, y.root, d, n)
    ensures var f := Lookup(a, y, v, d, key); f.Some? && f.value.Dir? ==> AtLevel(v, y.root, f.value.cluster, n + 1)
  {
    hide VolInv, Find, Content;
  }

  /** Each step of a walk goes one level down. */
  lemma {:induction false} LeadsDown(a: Image, y: Layout, v: Volume, d: nat, p: seq<byte>, e: nat, q: seq<byte>,
                                     i: nat) returns (n: nat)
    requires VolInv(a, y, v) && d in v.dirs && AtLevel(v, y.root, d, i) && Leads(a, y, v, d, p, e, q)
    ensures AtLevel(v, y.root, e, i + n) && (n == 0 ==> d == e && p == q)
    decreases |p|
  {
    hide VolInv, Lookup, Canon, AtLevel;
    if d == e && p == q { return 0; }
    LookupDir(a, y, v, d, Canon(Seg(p)));
    LookupBelow(a, y, v, d, Canon(Seg(p)), i);
    Shorter(p);
    n := LeadsDown(a, y, v, Lookup(a, y, v, d, Canon(Seg(p))).value.cluster, Skip(After(p)), e, q, i + 1);
    n := n + 1;
  }

  /** A new name in the directory where a walk stopped for want of another one does not help it on. */
  lemma {:induction false} MissStays(a: Image, b: Image, y: Layout, v: Volume, v': Volume, d: nat, p: seq<byte>,
                                     e: nat, q: seq<byte>, key: seq<byte>, i: nat)
    requires VolInv(a, y, v) && VolInv(b, y, v') && v.dirs <= v'.dirs && SameBut(a, b, y, v, v', v.dirs, e, key)
    requires d in v.dirs && e in v.dirs && AtLevel(v, y.root, d, i) && Leads(a, y, v, d, p, e, q)
    requires !Ends(q) && Lookup(a, y, v, e, Canon(Seg(q))) == None && Canon(Seg(q)) != key
    ensures Miss(b, y, v', d, p) == Some(e)
    decreases |p|
  {
    hide VolInv, Lookup, Canon, AtLevel;
    if !(d == e && p == q) {
      var n := LeadsDown(a, y, v, d, p, e, q, i);
      if d == e { LevelUnique(a, y, v, e, i, i + n); }
      LookupDir(a, y, v, d, Canon(Seg(p)));
      LookupBelow(a, y, v, d, Canon(Seg(p)), i);
      Shorter(p);
      MissStays(a, b, y, v, v', Lookup(a, y, v, d, Canon(Seg(p))).value.cluster, Skip(After(p)), e, q, key, i + 1);
    }
  }

  /** A walk that misses a component in one directory misses it when names are added in another. */
  lemma {:induction false} MissKept(a: Image, b: Image, y: Layout, v: Volume, v': Volume, d: nat, p: seq<byte>,
                                    other: nat)
    requires VolInv(a, y, v) && VolInv(b, y, v') && v.dirs <= v'.dirs && Grows(a, b, y, v, v') && d in v.dirs
    requires Miss(a, y, v, d, p).Some? && Miss(a, y, v, d, p).value != other
    requires forall e, k :: e in v.dirs && e != other ==> Lookup(b, y, v', e, k) == Lookup(a, y, v, e, k)
    ensures Miss(b, y, v', d, p) == Miss(a, y, v, d, p)
    decreases |p|
  {
    hide VolInv, Lookup, Canon;
    LookupDir(a, y, v, d, Canon(Seg(p)));
    Shorter(p);
    var n := Lookup(a, y, v, d, Canon(Seg(p)));
    if n.Some? { MissKept(a, b, y, v, v', n.value.cluster, Skip(After(p)), other); }
  }

  // ---------- well-formed paths ----------

  /** No component is empty and the path does not end in a slash. */
  predicate Clean(p: seq<byte>)
    decreases |p|
  {
    !Ends(p) && (After(p) == [] || (Shorter(p); Clean(Skip(After(p)))))
  }

  /** The two ways to walk a clean path agree on directories. */
  lemma {:induction false} WalksAgree(a: Image, y: Layout, v: Volume, d: nat, p: seq<byte>, c: nat)
    requires VolInv(a, y, v) && d in v.dirs && Clean(p)
    ensures Walk(a, y, v, d, p) == Some(Dir(c)) <==> DirWalk(a, y, v, d, p) == Some(c)
    decreases |p|
  {
    hide VolInv, Lookup, Canon;
    LookupDir(a, y, v, d, Canon(Seg(p)));
    Shorter(p);
    var n := Lookup(a, y, v, d, Canon(Seg(p)));
    if n.Some? && n.value.Dir? {
      var e, q := n.value.cluster, Skip(After(p));
      if After(p) == [] {
        assert DirWalk(a, y, v, e, q) == Some(e);
      } else {
        WalksAgree(a, y, v, e, q, c);
      }
    }
  }

  // ---------- paths and the names they spell ----------

  /** Names that a path can spell: not empty, at most fifteen characters, no slash. */
  predicate Spellable(names: seq<seq<byte>>) {
    forall i :: 0 <= i < |names| ==> 0 < |names[i]| <= 15 && SLASH !in names[i]
  }

  /** The names with slashes between them. */
  function Spelled(names: seq<seq<byte>>): seq<byte> {
    if names == [] then [] else if |names| == 1 then names[0] else names[0] + [SLASH] + Spelled(names[1..])
  }

  /** What the names lead to from directory d on, each looked up in the directory before it. */
  ghost function Along(a: Image, y: Layout, v: Volume, d: nat, names: seq<seq<byte>>): Option<Node>
    requires VolInv(a, y, v) && d in v.dirs
    decreases |names|
  {
    if names == [] then None else
      var n := Lookup(a, y, v, d, Canon(names[0]));
      LookupDir(a, y, v, d, Canon(names[0]));
      if |names| == 1 || n.None? then n else if n.value.File? then None else Along(a, y, v, n.value.cluster, names[1..])
  }

  /** The first component of a path is its first name. */
  lemma FirstName(s: seq<byte>, t: seq<byte>)
    requires 0 < |s| <= 15 && SLASH !in s
    ensures Seg(s) == s && After(s) == []
    ensures Seg(s + [SLASH] + t) == s && After(s + [SLASH] + t) == [SLASH] + t && Skip([SLASH] + t) == t
  {
    var p := s + [SLASH] + t;
    SegLenIs(s, 15, |s|);
    SegLenIs(p, 15, |s|);
    assert p[..|s|] == s && p[|s|..] == [SLASH] + t;
  }

  lemma SegLenIs(p: seq<byte>, n: nat, k: nat)
    requires k <= n && k <= |p| && SLASH !in p[..k] && (k == |p| || p[k] == SLASH)
    ensures SegLen(p, n) == k
  {}

  /** A path that spells names leads where the names lead. */
  lemma {:induction false} WalkAlong(a: Image, y: Layout, v: Volume, d: nat, names: seq<seq<byte>>)
    requires VolInv(a, y, v) && d in v.dirs && Spellable(names)
    ensures Walk(a, y, v, d, Spelled(names)) == Along(a, y, v, d, names)
    ensures names != [] ==> Clean(Spelled(names))
    decreases |names|
  {
    hide VolInv, Lookup, Canon, Seg, After, Skip;
    if names != [] {
      var s, t := names[0], Spelled(names[1..]);
      FirstName(s, t);
      LookupDir(a, y, v, d, Canon(s));
      var n := Lookup(a, y, v, d, Canon(s));
      if |names| > 1 {
        WalkAlong(a, y, v, if n.Some? && n.value.Dir? then n.value.cluster else d, names[1..]);
      }
    }
  }

  /** With a slash before it, it leads where they lead from the root. */
  lemma PathAlong(a: Image, y: Layout, v: Volume, d: nat, names: seq<seq<byte>>)
    requires VolInv(a, y, v) && d in v.dirs && y.root in v.dirs && Spellable(names)
    ensures PathNode(a, y, v, d, Spelled(names)) == Along(a, y, v, d, names)
    ensures PathNode(a, y, v, d, [47] + Spelled(names)) == Along(a, y, v, y.root, names)
  {
    hide VolInv, Walk, Along;
    WalkAlong(a, y, v, d, names);
    WalkAlong(a, y, v, y.root, names);
    var p := Spelled(names);
    assert ([47] + p)[1..] == p;
    if names != [] { assert p[0] == names[0][0]; }
  }

  /** Characters of a C string that a directory entry may begin with. */
  predicate Ascii(p: seq<byte>) { forall i :: 0 <= i < |p| ==> 0 < p[i] < 128 }

  /** The directory form of an ASCII name makes a live entry. */
  lemma AsciiLive(s: seq<byte>)
    requires Ascii(s)
    ensures LiveName(To83(s))
  {
    var n := To83(s);
    assert n[0] == Field(Base(s), 8)[0];
    if Base(s) != [] { assert Base(s)[0] == s[0]; }
  }

  lemma AsciiParts(p: seq<byte>)
    requires Ascii(p)
    ensures Ascii(Seg(p)) && Ascii(Skip(After(p))) && Ascii(Skip(p))
  {}
}

/** The physical frame allocator: a packed bitmap refining a set of free frames. */
module MemoryManagement {
  import opened Prelude
  import opened BitmapModel
  import opened FrameSets

  /** One UEFI memory-map record; sizes and ends are 64-bit values. */
  datatype Descriptor = Descriptor(kind: nat, start: nat, pages: nat) {
    function Size(): nat { (pages * FRAME_SIZE) % TWO_64 }
    function End(): nat { (start + pages * FRAME_SIZE) % TWO_64 }
    function FirstFrame(): nat { start / FRAME_SIZE }
    function EndFrame(): nat { End() / FRAME_SIZE }
  }

  const CONVENTIONAL: nat := 7

  /** Highest region end in the memory map. */
  function RangeEnd(memmap: seq<Descriptor>): (e: nat)
    ensures forall d :: d in memmap ==> d.End() <= e
    ensures e == 0 || exists d :: d in memmap && d.End() == e
  {
    if memmap == [] then 0
    else
      var e := RangeEnd(memmap[..|memmap| - 1]);
      var last := memmap[|memmap| - 1];
      assert memmap == memmap[..|memmap| - 1] + [last];
      if last.End() > e then last.End() else e
  }

  /** Where the bitmap is put: the start of the first conventional region large enough, 0 if there is none. */
  function BitmapBase(memmap: seq<Descriptor>, size: nat): nat {
    if memmap == [] then 0
    else if Roomy(memmap[0], size) then memmap[0].start
    else BitmapBase(memmap[1..], size)
  }

  predicate Roomy(d: Descriptor, size: nat) { d.kind == CONVENTIONAL && d.Size() >= size }

  /** Region i is the first that is large enough. */
  predicate FirstRoomy(memmap: seq<Descriptor>, size: nat, i: nat)
    requires i < |memmap|
  {
    Roomy(memmap[i], size) && forall j :: 0 <= j < i ==> !Roomy(memmap[j], size)
  }

  /** There is no base exactly when no conventional region is large enough or the first one that is begins at address 0,
      however many follow. */
  lemma {:induction false} BaseZeroIff(memmap: seq<Descriptor>, size: nat)
    ensures BitmapBase(memmap, size) == 0 <==>
              forall i: nat :: i < |memmap| && FirstRoomy(memmap, size, i) ==> memmap[i].start == 0
    decreases |memmap|
  {
    if memmap != [] {
      var rest := memmap[1..];
      BaseZeroIff(rest, size);
      if Roomy(memmap[0], size) {
        assert FirstRoomy(memmap, size, 0);
      } else {
        forall i: nat | i < |memmap| && FirstRoomy(memmap, size, i) ensures i > 0 && FirstRoomy(rest, size, i - 1) {
          assert rest[i - 1] == memmap[i] && forall j :: 0 <= j < i - 1 ==> rest[j] == memmap[j + 1];
        }
        forall i: nat | i < |rest| && FirstRoomy(rest, size, i) ensures FirstRoomy(memmap, size, i + 1) {
          forall j | 0 <= j < i + 1 ensures !Roomy(memmap[j], size) { if j > 0 { assert memmap[j] == rest[j - 1]; } }
        }
      }
    }
  }

  /** The base is the start of the first region that is large enough. */
  lemma {:induction false} BaseIsFirst(memmap: seq<Descriptor>, size: nat, i: nat)
    requires i < |memmap| && FirstRoomy(memmap, size, i)
    ensures BitmapBase(memmap, size) == memmap[i].start
    decreases |memmap|
  {
    if i > 0 {
      var rest := memmap[1..];
      assert forall j :: 0 <= j < |rest| ==> rest[j] == memmap[j + 1];
      assert !Roomy(memmap[0], size);
      assert FirstRoomy(rest, size, i - 1);
      BaseIsFirst(rest, size, i - 1);
    }
  }

  /** The bitmap lies in usable memory with all its bytes. */
  lemma {:induction false} BaseIsUsable(memmap: seq<Descriptor>, size: nat)
    requires (forall d :: d in memmap ==> Plain(d)) && BitmapBase(memmap, size) != 0
    ensures exists d :: d in memmap && d.kind == 7 && d.start == BitmapBase(memmap, size) && size <= 4096 * d.pages
    decreases |memmap|
  {
    if Roomy(memmap[0], size) {
      assert memmap[0] in memmap;
    } else {
      BaseIsUsable(memmap[1..], size);
    }
  }

  /** A region is large enough when it is of type 7 and its bytes hold the bitmap. */
  lemma RoomyIs(d: Descriptor, size: nat)
    requires Plain(d)
    ensures Roomy(d, size) <==> d.kind == 7 && size <= 4096 * d.pages
  {}

  /** A map whose first large region begins at address 0: no base is found, though the second region would do. */
  lemma ZeroBaseExample()
    ensures var memmap := [Descriptor(CONVENTIONAL, 0, 160), Descriptor(CONVENTIONAL, 0x10_0000, 160)];
            BitmapBase(memmap, 32) == 0 && BitmapBase(memmap[1..], 32) == 0x10_0000
  {}

  /** Frame f belongs to a conventional region of the memory map. */
  predicate Conventional(memmap: seq<Descriptor>, f: nat) {
    exists d :: d in memmap && d.kind == CONVENTIONAL && d.FirstFrame() <= f < d.EndFrame()
  }

  /** A region of whole pages inside the address space, as the firmware reports it. */
  predicate Plain(d: Descriptor) { d.start % 4096 == 0 && d.start + 4096 * d.pages < TWO_64 }

  /** The 4096 bytes of frame f all belong to usable memory, type 7 of the firmware's memory map. */
  predicate InUsable(memmap: seq<Descriptor>, f: nat) {
    exists d :: d in memmap && d.kind == 7 && d.start <= 4096 * f && 4096 * f + 4096 <= d.start + 4096 * d.pages
  }

  /** The frames the set-up frees are those that lie in usable memory with all their bytes. */
  lemma ConventionalIs(memmap: seq<Descriptor>, f: nat)
    requires forall d :: d in memmap ==> Plain(d)
    ensures Conventional(memmap, f) <==> InUsable(memmap, f)
  {
    forall d | d in memmap && d.kind == CONVENTIONAL
      ensures d.FirstFrame() <= f < d.EndFrame() <==> d.start <= 4096 * f && 4096 * f + 4096 <= d.start + 4096 * d.pages
    {
      WholePages(d, f);
    }
  }

  lemma WholePages(d: Descriptor, f: nat)
    requires Plain(d)
    ensures d.FirstFrame() <= f < d.EndFrame() <==> d.start <= 4096 * f && 4096 * f + 4096 <= d.start + 4096 * d.pages
  {
    var k := d.start / 4096;
    assert d.start == 4096 * k && d.End() == 4096 * (k + d.pages);
  }

  /** The first frame at or after an address: 64-bit arithmetic. */
  function FrameAfter(address: nat): nat { ((address + FRAME_SIZE - 1) % TWO_64) / FRAME_SIZE }

  /** Frame f is one of those the set-up reserves for the byte range [start, end). */
  predicate Holds(f: nat, start: nat, end: nat) {
    start / FRAME_SIZE <= f < FrameAfter(end)
  }

  /** These are the frames with a byte of the range, for a range that does not reach the end of the address space. */
  lemma HoldsBytes(f: nat, start: nat, end: nat)
    requires start < end <= TWO_64 - FRAME_SIZE
    ensures Holds(f, start, end) <==> exists a: nat {:trigger a / FRAME_SIZE} :: start <= a < end && a / FRAME_SIZE == f
  {
    if Holds(f, start, end) {
      var a := if start / FRAME_SIZE == f then start else f * FRAME_SIZE;
      assert start <= a < end && a / FRAME_SIZE == f;
    }
  }

  /** Frame f is conventional memory other than frame 0, the bitmap of `size` bytes and the kernel image. */
  predicate Allocatable(memmap: seq<Descriptor>, size: nat, kernelStart: nat, kernelEnd: nat, f: nat) {
    var base := BitmapBase(memmap, size);
    Conventional(memmap, f) && f != 0 && !Holds(f, base, base + size) && !Holds(f, kernelStart, kernelEnd)
  }

  lemma ConventionalInRange(memmap: seq<Descriptor>, f: nat)
    requires Conventional(memmap, f)
    ensures f < RangeEnd(memmap) / FRAME_SIZE
  {
    var d :| d in memmap && d.kind == CONVENTIONAL && d.FirstFrame() <= f < d.EndFrame();
    assert d.End() <= RangeEnd(memmap);
    assert d.End() / FRAME_SIZE <= RangeEnd(memmap) / FRAME_SIZE;
  }

  /** Frame count of a request: size_t arithmetic, so the rounding can wrap. */
  function FrameCount(size: nat): nat
    requires size < TWO_64
  {
    ((size + FRAME_SIZE - 1) % TWO_64) / FRAME_SIZE
  }

  /** The rounding wraps to zero frames exactly for the last 4095 sizes. */
  lemma FrameCountWraps(size: nat)
    requires 0 < size < TWO_64
    ensures FrameCount(size) == 0 <==> size > TWO_64 - FRAME_SIZE
    ensures size <= TWO_64 - FRAME_SIZE ==> FRAME_SIZE * (FrameCount(size) - 1) < size <= FRAME_SIZE * FrameCount(size)
  {}

  class MemoryManager {
    var bitmap: Bitmap
    var rangeEnd: nat

    constructor ()
      ensures rangeEnd == 0 && fresh(bitmap) && fresh(bitmap.buffer) && bitmap.buffer.Length == 0
    {
      bitmap := new Bitmap(0);
      rangeEnd := 0;
    }

    /** The objects the allocator updates. */
    ghost function FreeSet(): set<nat>
      reads this, bitmap, bitmap.buffer
    {
      bitmap.FreeSet()
    }

    ghost function Total(): nat
      reads this
    {
      rangeEnd / FRAME_SIZE
    }

    /** Every free frame lies inside the managed range (so the padding bits of the last byte are set),
        and frame 0 is never free. */
    ghost predicate Valid()
      reads this, bitmap, bitmap.buffer
    {
      && bitmap.buffer.Length == (Total() + 7) / 8
      && (forall f: nat :: f in FreeSet() ==> 0 < f < Total())
    }

    /** Marks the frames [from, to). */
    method Mark(from: nat, to: nat, inUse: bool)
      modifies bitmap.buffer
      ensures forall f: nat :: bitmap.Get(f) ==
                if from <= f < to && f / 8 < bitmap.buffer.Length then inUse else old(bitmap.Get(f))
    {
      var f := from;
      while f < to
        invariant from <= f && (f <= to || f == from)
        invariant forall g: nat :: bitmap.Get(g) ==
                    if from <= g < f && g / 8 < bitmap.buffer.Length then inUse else old(bitmap.Get(g))
      {
        bitmap.Set(f, inUse);
        f := f + 1;
      }
    }

    /** First pass over the map: the highest region end. */
    method MeasureRange(memmap: seq<Descriptor>)
      requires rangeEnd == 0
      modifies this`rangeEnd
      ensures rangeEnd == RangeEnd(memmap)
    {
      for i := 0 to |memmap|
        invariant rangeEnd == RangeEnd(memmap[..i])
      {
        assert memmap[..i + 1][..i] == memmap[..i];
        var regionEnd := memmap[i].End();
        if regionEnd > rangeEnd {
          rangeEnd := regionEnd;
        }
      }
      assert memmap[..|memmap|] == memmap;
    }

    /** Second pass: where the bitmap goes. */
    static method PlaceBitmap(memmap: seq<Descriptor>, size: nat) returns (base: nat)
      ensures base == BitmapBase(memmap, size)
    {
      base := 0;
      var k := 0;
      while k < |memmap|
        invariant k <= |memmap|
        invariant BitmapBase(memmap, size) == BitmapBase(memmap[k..], size)
      {
        if Roomy(memmap[k], size) {
          return memmap[k].start;
        }
        k := k + 1;
      }
    }

    /** Third pass: frees the frames of every conventional region. */
    method FreeConventional(memmap: seq<Descriptor>)
      requires bitmap.buffer.Length == (RangeEnd(memmap) / FRAME_SIZE + 7) / 8
      requires forall f: nat :: bitmap.Get(f)
      modifies bitmap.buffer
      ensures forall f: nat :: !bitmap.Get(f) <==> Conventional(memmap, f)
    {
      for i := 0 to |memmap|
        invariant forall f: nat :: !bitmap.Get(f) <==> Conventional(memmap[..i], f)
      {
        var d := memmap[i];
        label L:
        if d.kind == CONVENTIONAL {
          Mark(d.FirstFrame(), d.EndFrame(), false);
        }
        OneMoreRegion(memmap, i);
        forall f: nat
          ensures !bitmap.Get(f) <==> Conventional(memmap[..i + 1], f)
        {
          assert old@L(bitmap.Get(f)) <==> !Conventional(memmap[..i], f);
          if d.kind == CONVENTIONAL && d.FirstFrame() <= f < d.EndFrame() {
            ConventionalInRange(memmap, f);
          }
        }
      }
      assert memmap[..|memmap|] == memmap;
    }

    /** Takes the bitmap's own frames, the kernel image and frame 0 out again. */
    method Reserve(bitmapStart: nat, bitmapEnd: nat, kernelStart: nat, kernelEnd: nat)
      modifies bitmap.buffer
      ensures forall f: nat :: bitmap.Get(f) <==>
                old(bitmap.Get(f)) || f == 0 || Holds(f, bitmapStart, bitmapEnd) || Holds(f, kernelStart, kernelEnd)
    {
      hide Bitmap.Get;
      Mark(bitmapStart / FRAME_SIZE, FrameAfter(bitmapEnd), true);
      Mark(kernelStart / FRAME_SIZE, FrameAfter(kernelEnd), true);
      bitmap.Set(0, true);
    }

    /** Builds the bitmap from the memory map. Returns false where the source halts: the base it found is 0. */
    method Initialize(memmap: seq<Descriptor>, kernelStart: nat, kernelEnd: nat) returns (ok: bool)
      requires rangeEnd == 0
      modifies this
      ensures rangeEnd == RangeEnd(memmap)
      ensures ok <==> BitmapBase(memmap, (Total() + 7) / 8) != 0
      ensures ok ==> Valid() && fresh(bitmap) && fresh(bitmap.buffer)
      ensures ok ==>
                forall f: nat :: f in FreeSet() <==> Allocatable(memmap, (Total() + 7) / 8, kernelStart, kernelEnd, f)
      ensures ok && (forall d :: d in memmap ==> Plain(d)) ==>
                var size := (Total() + 7) / 8;
                var base := BitmapBase(memmap, size);
                forall f: nat :: f in FreeSet() <==>
                  InUsable(memmap, f) && f != 0 && !Holds(f, base, base + size) && !Holds(f, kernelStart, kernelEnd)
    {
      hide Bitmap.Get, Conventional, RangeEnd, BitmapBase, Holds, FrameAfter, InUsable, Plain;
      MeasureRange(memmap);
      var size := (rangeEnd / FRAME_SIZE + 7) / 8;
      var base := PlaceBitmap(memmap, size);
      if base == 0 {
        return false;
      }
      bitmap := new Bitmap(size);
      FillUsed();
      FreeConventional(memmap);
      forall f: nat | Conventional(memmap, f) ensures f < Total() {
        ConventionalInRange(memmap, f);
      }
      Reserve(base, base + size, kernelStart, kernelEnd);
      if forall d :: d in memmap ==> Plain(d) {
        forall f: nat ensures Conventional(memmap, f) <==> InUsable(memmap, f) { ConventionalIs(memmap, f); }
      }
      return true;
    }

    lemma OneMoreRegion(memmap: seq<Descriptor>, i: nat)
      requires i < |memmap|
      ensures forall f: nat :: Conventional(memmap[..i + 1], f) <==>
                Conventional(memmap[..i], f)
                || (memmap[i].kind == CONVENTIONAL && memmap[i].FirstFrame() <= f < memmap[i].EndFrame())
    {
      assert memmap[..i + 1] == memmap[..i] + [memmap[i]];
    }

    /** memset of the bitmap with 0xFF. */
    method FillUsed()
      modifies bitmap.buffer
      ensures forall f: nat :: bitmap.Get(f)
    {
      for i := 0 to bitmap.buffer.Length
        invariant forall j :: 0 <= j < i ==> bitmap.buffer[j] == 0xFF
      {
        bitmap.buffer[i] := 0xFF;
      }
      forall f: nat ensures bitmap.Get(f) { FullHasMask(f % 8); }
    }

    /** One frame: the lowest free one. */
    method AllocateFrame() returns (r: Option<nat>)
      requires Valid()
      modifies bitmap.buffer
      ensures Valid()
      ensures r.None? <==> old(FreeSet()) == {}
      ensures r.None? ==> FreeSet() == old(FreeSet())
      ensures r.Some? ==> r.value in old(FreeSet()) && (forall f: nat :: f in old(FreeSet()) ==> r.value <= f)
      ensures r.Some? ==> FreeSet() == old(FreeSet()) - {r.value}
    {
      hide Bitmap.Get;
      var f := bitmap.FindFreeFrame();
      if f < 0 {
        return None;
      }
      bitmap.Set(f, true);
      assert forall g: nat :: g in FreeSet() ==> g in old(FreeSet());
      return Some(f);
    }

    /** Gives a frame back. Frames past the bitmap are ignored; frame 0 and the padding bits of the last byte are
        not. */
    method FreeFrame(f: nat)
      requires Valid()
      modifies bitmap.buffer
      ensures FreeSet() == old(FreeSet()) + if f / 8 < bitmap.buffer.Length then {f} else {}
      ensures Valid() <==> 0 < f < Total() || f / 8 >= bitmap.buffer.Length
    {
      bitmap.Set(f, false);
      assert forall g: nat :: g in FreeSet() ==> g == f || g in old(FreeSet());
    }

    /** A contiguous block for `size` bytes, as a frame number. Apart from the sizes whose frame count wraps
        to zero, it is the naive first-fit answer and reserves exactly that block. */
    method Allocate(size: nat) returns (r: Option<nat>)
      requires Valid() && size < TWO_64
      modifies bitmap.buffer
      ensures Valid()
      ensures size == 0 ==> r == None && FreeSet() == old(FreeSet())
      ensures 0 < size <= TWO_64 - FRAME_SIZE ==>
                && r == FirstFit(old(FreeSet()), Total(), FrameCount(size), 0)
                && FreeSet() == old(FreeSet()) - (if r.None? then {} else Frames(r.value, FrameCount(size)))
      ensures size > TWO_64 - FRAME_SIZE ==>
                FreeSet() == old(FreeSet()) && (r.Some? <==> FreeSet() != {}) && (r.Some? ==> r.value in FreeSet())
    {
      hide Bitmap.Get, FirstFit, Fits, FrameCount, Frames;
      if size == 0 {
        return None;
      }
      var n := FrameCount(size);
      FrameCountWraps(size);
      ghost var free := FreeSet();
      if n == 1 {
        r := AllocateOne();
        return;
      }
      r := SearchRun(n);
      if r.Some? {
        Mark(r.value, r.value + n, true);
        assert forall f: nat :: f in FreeSet() ==> f in free;
      }
    }

    /** The short cut for a single frame is first fit too. */
    method AllocateOne() returns (r: Option<nat>)
      requires Valid()
      modifies bitmap.buffer
      ensures Valid() && r == FirstFit(old(FreeSet()), Total(), 1, 0)
      ensures FreeSet() == old(FreeSet()) - (if r.None? then {} else Frames(r.value, 1))
    {
      hide Bitmap.Get;
      ghost var free, total := FreeSet(), Total();
      r := AllocateFrame();
      if r.Some? {
        forall k: nat | k < r.value ensures !Fits(free, total, 1, k) { assert k !in free; }
        FirstFitUnique(free, total, 1, r.value);
        assert Frames(r.value, 1) == {r.value};
      } else {
        NoneFree(free, total, 1);
      }
    }

    /** The skip-ahead search for n consecutive free frames. With n == 0 it stops at the first free frame. */
    method SearchRun(n: nat) returns (r: Option<nat>)
      requires Valid()
      ensures n > 0 ==> r == FirstFit(FreeSet(), Total(), n, 0)
      ensures n == 0 ==> (r.Some? <==> FreeSet() != {}) && (r.Some? ==> r.value in FreeSet())
      ensures r.Some? ==> r.value + n <= Total()
    {
      hide Bitmap.Get;
      ghost var free, total := FreeSet(), Total();
      var start := bitmap.FindFreeFrame();
      if start < 0 {
        if n > 0 { NoneFree(free, total, n); }
        return None;
      }
      var i: nat := start;
      forall k: nat | n > 0 && k < i ensures !Fits(free, total, n, k) {
        assert k !in free;
      }
      while i < rangeEnd / FRAME_SIZE
        invariant start <= i
        invariant n > 0 ==> forall k: nat :: k < i ==> !Fits(free, total, n, k)
        invariant n == 0 ==> i == start
      {
        var found, j := true, 0;
        while j < n
          invariant j <= n && found && (n > 0 ==> i + j <= total)
          invariant forall f: nat :: i <= f < i + j ==> f in free
        {
          if i + j >= rangeEnd / FRAME_SIZE || bitmap.Get(i + j) {
            found := false;
            break;
          }
          j := j + 1;
        }
        if found {
          if n > 0 { FirstFitUnique(free, total, n, i); }
          return Some(i);
        }
        SkipAhead(free, total, n, i, j);
        i := i + j + 1;
      }
      FirstFitIsLowest(free, total, n, 0);
      return None;
    }

    /** Gives a block back, frame by frame. */
    method Free(start: nat, size: nat)
      requires Valid() && size < TWO_64
      modifies bitmap.buffer
      ensures FreeSet() == old(FreeSet()) + Covered(start, FrameCount(size), bitmap.buffer.Length)
      ensures Valid() <==>
                forall f: nat :: f in Covered(start, FrameCount(size), bitmap.buffer.Length) ==> 0 < f < Total()
    {
      hide Bitmap.Get, Covered;
      CoveredIs(start, FrameCount(size), bitmap.buffer.Length);
      Mark(start, start + FrameCount(size), false);
      assert forall g: nat :: g in FreeSet() <==>
        g in old(FreeSet()) || g in Covered(start, FrameCount(size), bitmap.buffer.Length);
    }
  }

  /** The frames of a block for which a bitmap of the given size has bits. */
  function Covered(start: nat, n: nat, bytes: nat): set<nat> {
    set f | f in Frames(start, n) && f / 8 < bytes
  }

  lemma CoveredIs(start: nat, n: nat, bytes: nat)
    ensures forall f: nat :: f in Covered(start, n, bytes) <==> start <= f < start + n && f / 8 < bytes
  {}

  /** A block inside the managed range is covered whole. */
  lemma CoveredWhole(start: nat, n: nat, total: nat)
    requires 0 < start && start + n <= total
    ensures Covered(start, n, (total + 7) / 8) == Frames(start, n)
    ensures forall f: nat :: f in Frames(start, n) ==> 0 < f < total
  {}
}

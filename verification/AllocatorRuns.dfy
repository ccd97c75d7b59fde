/** Runs of the frame allocator: what every sequence of allocations and releases of live blocks keeps. */
module AllocatorRuns {
  import opened Prelude
  import opened FrameSets
  import opened MemoryManagement

  datatype Block = Block(start: nat, count: nat) {
    function Set(): set<nat> { Frames(start, count) }
  }

  datatype State = State(free: set<nat>, live: seq<Block>)

  /** `Release(k, size)` frees the k-th live block with a size that rounds to the block's frame count. */
  datatype Op = OneFrame | Request(size: nat) | Release(k: nat, size: nat)

  predicate Legal(s: State, op: Op) {
    match op
    case OneFrame => true
    case Request(size) => size < TWO_64
    case Release(k, size) => k < |s.live| && size < TWO_64 && FrameCount(size) == s.live[k].count
  }

  /** First fit of n frames; the block becomes live. */
  function Take(s: State, total: nat, n: nat): State {
    var r := FirstFit(s.free, total, n, 0);
    if r.None? || n == 0 then s else State(s.free - Frames(r.value, n), s.live + [Block(r.value, n)])
  }

  /** One operation; an illegal one (a release of a block that is not live) is not part of a run and changes nothing. */
  function Step(s: State, total: nat, op: Op): State {
    if !Legal(s, op) then s
    else match op
      case OneFrame => Take(s, total, 1)
      case Request(size) => Take(s, total, FrameCount(size))
      case Release(k, _) => State(s.free + s.live[k].Set(), Without(s.live, k))
  }

  function Run(s: State, total: nat, ops: seq<Op>): State {
    if ops == [] then s else Step(Run(s, total, ops[..|ops| - 1]), total, ops[|ops| - 1])
  }

  function LiveFrames(live: seq<Block>): nat {
    if live == [] then 0 else LiveFrames(live[..|live| - 1]) + live[|live| - 1].count
  }

  /** The frames of `base` are split between the free set and the live blocks. */
  ghost predicate Split(s: State, base: set<nat>) {
    && s.free <= base
    && (forall k :: 0 <= k < |s.live| ==> s.live[k].Set() <= base && s.live[k].Set() !! s.free)
    && (forall j, k :: 0 <= j < k < |s.live| ==> s.live[j].Set() !! s.live[k].Set())
    && |s.free| + LiveFrames(s.live) == |base|
  }

  lemma {:induction false} LiveFramesWithout(live: seq<Block>, k: nat)
    requires k < |live|
    ensures LiveFrames(live) == LiveFrames(live[..k] + live[k + 1..]) + live[k].count
    decreases |live|
  {
    var n := |live| - 1;
    if k < n {
      var rest := live[..k] + live[k + 1..];
      LiveFramesWithout(live[..n], k);
      assert rest[..|rest| - 1] == live[..n][..k] + live[..n][k + 1..];
      assert rest[|rest| - 1] == live[n];
    } else {
      assert live[..k] + live[k + 1..] == live[..n];
    }
  }

  lemma BlockTaken(s: State, base: set<nat>, b: Block)
    requires Split(s, base) && b.Set() <= s.free
    ensures Split(State(s.free - b.Set(), s.live + [b]), base)
  {
    hide Frames, Block.Set;
    var live' := s.live + [b];
    FramesCount(b);
    TakenCount(s.free, b.Set());
    LiveFramesMore(s.live, b);
    forall k | 0 <= k < |live'| ensures live'[k].Set() <= base && live'[k].Set() !! s.free - b.Set() {
      if k < |s.live| { assert s.live[k].Set() <= base && s.live[k].Set() !! s.free; }
    }
    forall j, k | 0 <= j < k < |live'| ensures live'[j].Set() !! live'[k].Set() {
      if k == |s.live| { assert s.live[j].Set() !! s.free; } else { assert s.live[j].Set() !! s.live[k].Set(); }
    }
  }

  lemma TakenCount(free: set<nat>, b: set<nat>)
    requires b <= free
    ensures |free - b| == |free| - |b|
  {
    assert (free - b) + b == free;
  }

  lemma LiveFramesMore(live: seq<Block>, b: Block)
    ensures LiveFrames(live + [b]) == LiveFrames(live) + b.count
  {
    assert (live + [b])[..|live|] == live;
  }

  lemma TakeKeepsSplit(s: State, base: set<nat>, total: nat, n: nat)
    requires Split(s, base)
    ensures Split(Take(s, total, n), base)
  {
    FirstFitIsLowest(s.free, total, n, 0);
    var r := FirstFit(s.free, total, n, 0);
    if r.Some? && n > 0 {
      var b := Block(r.value, n);
      assert b.Set() <= s.free;
      BlockTaken(s, base, b);
    }
  }

  /** Dropping block k from the live list renumbers the blocks behind it. */
  function Without(live: seq<Block>, k: nat): (rest: seq<Block>)
    requires k < |live|
    ensures |rest| == |live| - 1
    ensures forall j :: 0 <= j < |rest| ==> rest[j] == live[if j < k then j else j + 1]
  {
    live[..k] + live[k + 1..]
  }

  lemma ReleaseKeepsSplit(s: State, base: set<nat>, k: nat)
    requires Split(s, base) && k < |s.live|
    ensures Split(State(s.free + s.live[k].Set(), Without(s.live, k)), base)
  {
    hide Frames, Block.Set;
    LiveFramesWithout(s.live, k);
    var rest, b := Without(s.live, k), s.live[k].Set();
    assert |b| == s.live[k].count by { FramesCount(s.live[k]); }
    assert |s.free + b| == |s.free| + |b|;
    forall j | 0 <= j < |rest| ensures rest[j].Set() <= base && rest[j].Set() !! s.free + b {
      OthersApart(s, base, k, if j < k then j else j + 1);
    }
    forall i, j | 0 <= i < j < |rest| ensures rest[i].Set() !! rest[j].Set() {
      assert s.live[if i < k then i else i + 1].Set() !! s.live[if j < k then j else j + 1].Set();
    }
  }

  lemma FramesCount(b: Block)
    ensures |b.Set()| == b.count
  {}

  lemma OthersApart(s: State, base: set<nat>, k: nat, j: nat)
    requires Split(s, base) && k < |s.live| && j < |s.live| && j != k
    ensures s.live[j].Set() <= base && s.live[j].Set() !! s.free + s.live[k].Set()
  {
    hide Frames, Block.Set;
  }

  lemma StepKeepsSplit(s: State, base: set<nat>, total: nat, op: Op)
    requires Split(s, base)
    ensures Split(Step(s, total, op), base)
  {
    if Legal(s, op) {
      match op
      case OneFrame => TakeKeepsSplit(s, base, total, 1);
      case Request(size) => TakeKeepsSplit(s, base, total, FrameCount(size));
      case Release(k, size) => ReleaseKeepsSplit(s, base, k);
    }
  }

  /** Over every run, free frames and live blocks keep partitioning the frames that were free at the
      start: live blocks are pairwise disjoint, none leaves that set, and the frame count is conserved. */
  lemma {:induction false} RunKeepsSplit(s: State, base: set<nat>, total: nat, ops: seq<Op>)
    requires Split(s, base)
    ensures Split(Run(s, total, ops), base)
    decreases |ops|
  {
    if ops != [] {
      var before, op := ops[..|ops| - 1], ops[|ops| - 1];
      RunKeepsSplit(s, base, total, before);
      StepKeepsSplit(Run(s, total, before), base, total, op);
    }
  }

  /** A successful request covers the bytes asked for exactly when the rounding does not wrap. */
  lemma BlockCoversRequest(size: nat)
    requires 0 < size < TWO_64
    ensures size <= FrameCount(size) * FRAME_SIZE <==> size <= TWO_64 - FRAME_SIZE
  {
    FrameCountWraps(size);
  }

  /** A wrapped request is answered with a frame that stays free: the next one-frame request hands it out again. */
  method WrappedRequestExample(mm: MemoryManager) returns (p: Option<nat>, q: Option<nat>)
    requires mm.Valid() && mm.FreeSet() == {5}
    modifies mm.bitmap.buffer
    ensures p == Some(5) && q == Some(5)
  {
    p := mm.Allocate(TWO_64 - 1);
    q := mm.AllocateFrame();
  }

  lemma FrameCountWhole()
    ensures FrameCount(FRAME_SIZE) == 1 && FrameCount(0) == 0
  {}

  /** A request carried out on the bitmap allocator is the abstract first fit. */
  method PerformRequest(mm: MemoryManager, live: seq<Block>, op: Op) returns (live': seq<Block>)
    requires mm.Valid() && !op.Release? && (op.Request? ==> op.size < TWO_64)
    modifies mm.bitmap.buffer
    ensures mm.Valid()
    ensures State(mm.FreeSet(), live') == Step(old(State(mm.FreeSet(), live)), mm.Total(), op)
  {
    hide Frames, FirstFit, Fits, FrameCount, MemoryManager.FreeSet, MemoryManager.Valid;
    var size := if op.OneFrame? then FRAME_SIZE else op.size;
    FrameCountWhole();
    if size > 0 { FrameCountWraps(size); }
    var r := mm.Allocate(size);
    live' := if r.None? || FrameCount(size) == 0 then live else live + [Block(r.value, FrameCount(size))];
  }

  /** A release carried out on the bitmap allocator returns exactly the block's frames. */
  method PerformRelease(mm: MemoryManager, live: seq<Block>, k: nat, size: nat, ghost base: set<nat>)
    returns (live': seq<Block>)
    requires mm.Valid() && Split(State(mm.FreeSet(), live), base)
    requires forall f: nat :: f in base ==> 0 < f < mm.Total()
    modifies mm.bitmap.buffer
    ensures mm.Valid()
    ensures State(mm.FreeSet(), live') == Step(old(State(mm.FreeSet(), live)), mm.Total(), Release(k, size))
  {
    hide Split, Frames, FrameCount, Covered, FirstFit, Fits;
    live' := live;
    if k < |live| && size < TWO_64 && FrameCount(size) == live[k].count {
      InBase(State(mm.FreeSet(), live), mm.Total(), base, k);
      if live[k].count > 0 {
        CoveredWhole(live[k].start, live[k].count, mm.Total());
        mm.Free(live[k].start, size);
      }
      live' := Without(live, k);
    }
  }

  method Perform(mm: MemoryManager, live: seq<Block>, op: Op, ghost base: set<nat>)
    returns (live': seq<Block>)
    requires mm.Valid() && Split(State(mm.FreeSet(), live), base)
    requires forall f: nat :: f in base ==> 0 < f < mm.Total()
    requires op.Request? ==> op.size < TWO_64
    modifies mm.bitmap.buffer
    ensures mm.Valid()
    ensures State(mm.FreeSet(), live') == Step(old(State(mm.FreeSet(), live)), mm.Total(), op)
  {
    if op.Release? {
      live' := PerformRelease(mm, live, op.k, op.size, base);
    } else {
      live' := PerformRequest(mm, live, op);
    }
  }

  /** The bitmap allocator, driven through any run, holds exactly the free set of the abstract run. */
  method Replay(mm: MemoryManager, ops: seq<Op>) returns (live: seq<Block>)
    requires mm.Valid()
    requires forall k :: 0 <= k < |ops| ==> ops[k].Request? ==> ops[k].size < TWO_64
    modifies mm.bitmap.buffer
    ensures mm.Valid()
    ensures State(mm.FreeSet(), live) == Run(old(State(mm.FreeSet(), [])), mm.Total(), ops)
    ensures Split(State(mm.FreeSet(), live), old(mm.FreeSet()))
  {
    live := [];
    ghost var s0 := State(mm.FreeSet(), []);
    for i := 0 to |ops|
      invariant mm.Valid()
      invariant State(mm.FreeSet(), live) == Run(s0, mm.Total(), ops[..i])
    {
      assert ops[..i + 1][..i] == ops[..i];
      RunKeepsSplit(s0, s0.free, mm.Total(), ops[..i]);
      live := Perform(mm, live, ops[i], s0.free);
    }
    assert ops[..|ops|] == ops;
    RunKeepsSplit(s0, s0.free, mm.Total(), ops);
  }

  /** From the memory map through any run of requests: every live block lies in conventional memory, clear of frame 0,
      of the bitmap and of the kernel image, and the live blocks are pairwise disjoint. */
  method BootAndReplay(mm: MemoryManager, memmap: seq<Descriptor>, kernelStart: nat, kernelEnd: nat, ops: seq<Op>)
    returns (ok: bool, live: seq<Block>)
    requires mm.rangeEnd == 0
    requires forall k :: 0 <= k < |ops| ==> ops[k].Request? ==> ops[k].size < TWO_64
    modifies mm
    ensures ok <==> BitmapBase(memmap, (RangeEnd(memmap) / FRAME_SIZE + 7) / 8) != 0
    ensures ok ==> forall k, f: nat :: 0 <= k < |live| && f in live[k].Set() ==>
                Allocatable(memmap, (RangeEnd(memmap) / FRAME_SIZE + 7) / 8, kernelStart, kernelEnd, f)
    ensures ok && (forall d :: d in memmap ==> Plain(d)) ==>
              forall k, f: nat :: 0 <= k < |live| && f in live[k].Set() ==> InUsable(memmap, f)
    ensures ok ==> forall j, k :: 0 <= j < k < |live| ==> live[j].Set() !! live[k].Set()
    ensures ok ==> forall f: nat :: f in mm.FreeSet() ==>
              Allocatable(memmap, (RangeEnd(memmap) / FRAME_SIZE + 7) / 8, kernelStart, kernelEnd, f)
  {
    hide Allocatable, Frames, RangeEnd, InUsable, Plain, Block.Set;
    live := [];
    ok := mm.Initialize(memmap, kernelStart, kernelEnd);
    if ok {
      live := Replay(mm, ops);
    }
  }

  lemma InBase(s: State, total: nat, base: set<nat>, k: nat)
    requires Split(s, base) && k < |s.live|
    requires forall f: nat :: f in base ==> 0 < f < total
    ensures s.live[k].count > 0 ==> 0 < s.live[k].start && s.live[k].start + s.live[k].count <= total
  {
    var b := s.live[k];
    if b.count > 0 {
      assert b.start in b.Set() && b.start + b.count - 1 in b.Set();
    }
  }
}

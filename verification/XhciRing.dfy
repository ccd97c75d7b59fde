/** The xHCI transfer ring: the driver as producer, the controller as consumer. */
module XhciRing {
  import opened Prelude

  /** A transfer request block: parameter, status and control words. */
  datatype Trb = Trb(parameter: nat, status: nat, control: nat)

  const ZERO: Trb := Trb(0, 0, 0)

  /** What the driver asks for: a buffer and its length. */
  datatype Request = Request(buf: nat, len: nat)

  /** Bit 0 of the control word. */
  function CycleBit(t: Trb): nat { t.control % 2 }
  function TypeOf(t: Trb): nat { t.control / 1024 % 64 }
  function ToggleBit(t: Trb): nat { t.control / 2 % 2 }

  /** Normal, with interrupt on completion and on short packet. */
  function NormalTrb(r: Request, cycle: nat): Trb { Trb(r.buf, r.len, cycle + 1024 + 32 + 4) }

  /** Link back to the start of the ring, with the toggle-cycle bit. */
  function LinkTrb(base: nat, cycle: nat): Trb { Trb(base, 0, cycle + 6 * 1024 + 2) }

  /** A word shifted right by i bits, and its bit i. */
  function Shr(n: nat, i: nat): nat { if i == 0 then n else Shr(n / 2, i - 1) }
  function ControlBit(t: Trb, i: nat): nat { Shr(t.control, i) % 2 }

  lemma TrbFields(r: Request, base: nat, cycle: nat)
    requires cycle < 2
    ensures CycleBit(NormalTrb(r, cycle)) == cycle && TypeOf(NormalTrb(r, cycle)) == 1
    ensures CycleBit(LinkTrb(base, cycle)) == cycle && TypeOf(LinkTrb(base, cycle)) == 6
            && ToggleBit(LinkTrb(base, cycle)) == 1
  {}

  /** The control words bit by bit. A normal block: cycle in bit 0, interrupt on short packet in bit 2, interrupt on
      completion in bit 5, type 1 from bit 10 on. A link: cycle, toggle cycle in bit 1, type 6. */
  lemma ControlWords(r: Request, base: nat, cycle: nat, i: nat)
    requires cycle < 2 && i < 32
    ensures ControlBit(NormalTrb(r, cycle), i) == if i == 0 then cycle else if i == 2 || i == 5 || i == 10 then 1 else 0
    ensures ControlBit(LinkTrb(base, cycle), i) == if i == 0 then cycle else if i == 1 || i == 11 || i == 12 then 1
            else 0
  {
    assert (1060 + cycle) / 2 == 530 && (6146 + cycle) / 2 == 3073;
    if i > 0 {
      BitsOf530(i - 1);
      BitsOf3073(i - 1);
    }
  }

  lemma BitsOf530(i: nat)
    ensures Shr(530, i) % 2 == if i == 1 || i == 4 || i == 9 then 1 else 0
  {
    if i == 0 { assert Shr(530, 0) == 530; }
    else if i == 1 { assert Shr(530, 1) == 265; }
    else if i == 2 { assert Shr(530, 2) == 132; }
    else if i == 3 { assert Shr(530, 3) == 66; }
    else if i == 4 { assert Shr(530, 4) == 33; }
    else if i == 5 { assert Shr(530, 5) == 16; }
    else if i == 6 { assert Shr(530, 6) == 8; }
    else if i == 7 { assert Shr(530, 7) == 4; }
    else if i == 8 { assert Shr(530, 8) == 2; }
    else if i == 9 { assert Shr(530, 9) == 1; }
    else {
      assert Shr(530, 10) == 0;
      ShrAdd(530, 10, i - 10);
    }
  }

  lemma BitsOf3073(i: nat)
    ensures Shr(3073, i) % 2 == if i == 0 || i == 10 || i == 11 then 1 else 0
  {
    if i == 0 { assert Shr(3073, 0) == 3073; }
    else if i == 1 { assert Shr(3073, 1) == 1536; }
    else if i == 2 { assert Shr(3073, 2) == 768; }
    else if i == 3 { assert Shr(3073, 3) == 384; }
    else if i == 4 { assert Shr(3073, 4) == 192; }
    else if i == 5 { assert Shr(3073, 5) == 96; }
    else if i == 6 { assert Shr(3073, 6) == 48; }
    else if i == 7 { assert Shr(3073, 7) == 24; }
    else if i == 8 { assert Shr(3073, 8) == 12; }
    else if i == 9 { assert Shr(3073, 9) == 6; }
    else if i == 10 { assert Shr(3073, 10) == 3; }
    else if i == 11 { assert Shr(3073, 11) == 1; }
    else {
      assert Shr(3073, 12) == 0;
      ShrAdd(3073, 12, i - 12);
    }
  }

  lemma {:induction false} ShrAdd(n: nat, i: nat, j: nat)
    ensures Shr(n, i + j) == Shr(Shr(n, i), j)
    ensures Shr(0, j) == 0
    decreases i + j
  {
    if i > 0 { ShrAdd(n / 2, i - 1, j); } else if j > 0 { ShrAdd(0, 0, j - 1); }
  }

  /** The cycle bit of a lap; the first lap writes ones over the cleared ring. */
  function CycleOf(lap: nat): (c: nat)
    ensures c < 2
  {
    if lap % 2 == 0 then 1 else 0
  }

  function Flip(c: nat): nat { if c == 0 then 1 else 0 }

  /** The ring in memory at address `base`, the producer's registers, the address and the cycle state the consumer
      holds, and the requests sent and seen. */
  datatype Ring = Ring(trbs: seq<Trb>, base: nat, index: nat, pcs: nat, pointer: nat, ccs: nat,
                       sent: seq<Request>, seen: seq<Request>, putLap: nat, getLap: nat)

  predicate Sized(s: Ring) { |s.trbs| == 32 && s.index < 31 }

  /** The block at an address: blocks have sixteen bytes. 32 for an address at which no block of the ring begins. */
  function BlockAt(base: nat, address: nat): (i: nat)
    ensures i <= 32 && (i < 32 ==> Begins(base, address, i)) && (i == 32 ==> forall j: nat :: !Begins(base, address, j))
  {
    if base <= address && (address - base) % 16 == 0 && (address - base) / 16 < 32 then (address - base) / 16 else 32
  }

  /** Block i of a ring at `base` begins at the address. */
  predicate Begins(base: nat, address: nat, i: nat) { i < 32 && address == base + 16 * i }

  /** Where the consumer stands. */
  function Dequeue(s: Ring): (i: nat)
    ensures i <= 32
  {
    BlockAt(s.base, s.pointer)
  }

  lemma AtBlock(base: nat, i: nat)
    requires i < 32
    ensures BlockAt(base, base + 16 * i) == i
  {}

  /** `SendNormalTRB`. */
  function Enqueue(s: Ring, r: Request): Ring
    requires Sized(s)
  {
    var trbs := s.trbs[s.index := NormalTrb(r, s.pcs)];
    if s.index + 1 == 31 then
      s.(trbs := trbs[31 := LinkTrb(s.base, s.pcs)], index := 0, pcs := Flip(s.pcs), sent := s.sent + [r], putLap :=
         s.putLap + 1)
    else
      s.(trbs := trbs, index := s.index + 1, sent := s.sent + [r])
  }

  /** The consumer owns the block it stands before when the cycle bits agree. */
  predicate Owned(s: Ring)
    requires Sized(s)
  {
    Dequeue(s) < 32 && CycleBit(s.trbs[Dequeue(s)]) == s.ccs
  }

  /** One consumer step: follow a link to the address it gives, or take a request and go on behind it. */
  function Consume(s: Ring): Ring
    requires Sized(s)
  {
    if !Owned(s) then s
    else
      var t := s.trbs[Dequeue(s)];
      if TypeOf(t) == 6 then
        s.(pointer := t.parameter, ccs := if ToggleBit(t) == 1 then Flip(s.ccs) else s.ccs, getLap := s.getLap + 1)
      else
        s.(pointer := s.pointer + 16, seen := s.seen + [Request(t.parameter, t.status)])
  }

  function Outstanding(s: Ring): int { |s.sent| - |s.seen| }

  /** What slot i holds: the request of this lap, of the lap before, or nothing yet. */
  ghost predicate SlotOk(s: Ring, i: nat)
    requires |s.trbs| == 32 && i < 31 && |s.sent| == 31 * s.putLap + s.index
  {
    if i < s.index then s.trbs[i] == NormalTrb(s.sent[31 * s.putLap + i], CycleOf(s.putLap))
    else if s.putLap == 0 then s.trbs[i] == ZERO
    else s.trbs[i] == NormalTrb(s.sent[31 * (s.putLap - 1) + i], CycleOf(s.putLap - 1))
  }

  /** The link is written at the end of every lap with the cycle bit of that lap. */
  ghost predicate LinkOk(s: Ring)
    requires |s.trbs| == 32
  {
    s.trbs[31] == if s.putLap == 0 then ZERO else LinkTrb(s.base, CycleOf(s.putLap - 1))
  }

  /** Producer and consumer positions; the consumer has seen a prefix of what was sent, is at most one ring behind, and
      when it stands before the link, the link is still the one of its lap. */
  ghost predicate Inv(s: Ring) {
    && Sized(s) && Dequeue(s) < 32 && |s.sent| == 31 * s.putLap + s.index && s.pcs == CycleOf(s.putLap)
    && |s.seen| == 31 * s.getLap + Dequeue(s) && s.ccs == CycleOf(s.getLap) && s.seen <= s.sent && Outstanding(s) <= 31
    && (Dequeue(s) == 31 ==> s.putLap == s.getLap + 1)
    && (forall i: nat :: i < 31 ==> SlotOk(s, i)) && LinkOk(s)
  }

  /** The producer may go on: the ring is not full, and it is not about to rewrite the link the consumer stands
      before. */
  predicate Safe(s: Ring) { Outstanding(s) <= 30 && !(s.index == 30 && Dequeue(s) == 31) }

  function Fresh(base: nat): Ring { Ring(seq(32, _ => ZERO), base, 0, 1, base, 1, [], [], 0, 0) }

  lemma FreshInv(base: nat)
    ensures Inv(Fresh(base))
  {
    AtBlock(base, 0);
  }

  /** Keeping at most 30 requests outstanding is always safe. */
  lemma ThirtyIsSafe(s: Ring)
    requires Inv(s) && Outstanding(s) + 1 <= 30
    ensures Safe(s)
  {}

  lemma EnqueueKeepsInv(s: Ring, r: Request)
    requires Inv(s) && Safe(s)
    ensures Inv(Enqueue(s, r))
  {
    hide SlotOk;
    EnqueueSlots(s, r);
    assert Enqueue(s, r).sent == s.sent + [r];
  }

  lemma EnqueueSlots(s: Ring, r: Request)
    requires Sized(s) && |s.sent| == 31 * s.putLap + s.index && s.pcs == CycleOf(s.putLap)
             && forall i: nat :: i < 31 ==> SlotOk(s, i)
    ensures var e := Enqueue(s, r); |e.sent| == 31 * e.putLap + e.index && forall i: nat :: i < 31 ==> SlotOk(e, i)
  {
    var e := Enqueue(s, r);
    forall i: nat | i < 31 ensures SlotOk(e, i) { assert SlotOk(s, i); }
  }

  /** The consumer takes exactly the next request when there is one, and follows the link at the end of a lap to the
      start of the ring. */
  lemma ConsumerSees(s: Ring)
    requires Inv(s)
    ensures Dequeue(s) < 31 ==> (Owned(s) <==> Outstanding(s) > 0)
    ensures Dequeue(s) < 31 && Owned(s) ==>
              |s.seen| < |s.sent| && Consume(s) == s.(pointer := s.pointer + 16, seen := s.seen + [s.sent[|s.seen|]])
    ensures Dequeue(s) == 31 ==>
              Owned(s) && Consume(s) == s.(pointer := s.base, ccs := Flip(s.ccs), getLap := s.getLap + 1)
    ensures Owned(s) ==> Dequeue(Consume(s)) == if Dequeue(s) == 31 then 0 else Dequeue(s) + 1
  {
    var i := Dequeue(s);
    AtBlock(s.base, if i == 31 then 0 else i + 1);
    assert s.pointer == s.base + 16 * i;
    hide BlockAt, SlotOk, NormalTrb, LinkTrb, CycleBit, TypeOf, ToggleBit;
    if i == 31 {
      TrbFields(Request(0, 0), s.base, s.ccs);
    } else {
      SlotSees(s, i);
    }
  }

  /** The block at slot i, by what is outstanding when the consumer stands before it. */
  lemma SlotSees(s: Ring, i: nat)
    requires Inv(s) && i == Dequeue(s) < 31
    ensures CycleBit(s.trbs[i]) == s.ccs <==> Outstanding(s) > 0
    ensures Outstanding(s) > 0 ==>
              |s.seen| < |s.sent| && TypeOf(s.trbs[i]) == 1
              && s.sent[|s.seen|] == Request(s.trbs[i].parameter, s.trbs[i].status)
  {
    hide BlockAt, CycleBit, TypeOf;
    assert SlotOk(s, i);
    if s.getLap == s.putLap {
      if i < s.index { TrbFields(s.sent[31 * s.putLap + i], s.base, s.ccs); }
      else if s.putLap > 0 {
        TrbFields(s.sent[31 * (s.putLap - 1) + i], s.base, CycleOf(s.putLap - 1));
      } else {
        ZeroCycle();
      }
    } else {
      assert s.putLap == s.getLap + 1 && s.index <= i;
      TrbFields(s.sent[31 * s.getLap + i], s.base, s.ccs);
    }
  }

  lemma ZeroCycle()
    ensures CycleBit(ZERO) == 0
  {}

  lemma ConsumeKeepsInv(s: Ring)
    requires Inv(s)
    ensures Inv(Consume(s))
  {
    ConsumerSees(s);
    hide Consume, Owned;
    var e := Consume(s);
    if Dequeue(s) == 31 || Owned(s) {
      forall i: nat | i < 31 ensures SlotOk(e, i) { assert SlotOk(s, i); }
    } else {
      NotOwned(s);
    }
  }

  lemma NotOwned(s: Ring)
    requires Sized(s) && !Owned(s)
    ensures Consume(s) == s
  {}

  /** The consumer stops only when it has seen everything. */
  lemma StopsOnlyWhenDone(s: Ring)
    requires Inv(s) && Consume(s) == s
    ensures s.seen == s.sent
  {
    ConsumerSees(s);
  }

  /** Enqueueing in any other situation strands the consumer: it stops with requests it has not seen. */
  lemma UnsafeStrands(s: Ring, r: Request)
    requires Inv(s) && !Safe(s)
    ensures Consume(Enqueue(s, r)) == Enqueue(s, r) && Outstanding(Enqueue(s, r)) >= 31
  {
    var e := Enqueue(s, r);
    TrbFields(r, s.base, s.pcs);
    if Outstanding(s) == 31 {
      assert s.putLap == s.getLap + 1 && s.index == Dequeue(s);
      assert e.trbs[Dequeue(s)] == NormalTrb(r, s.pcs);
    } else {
      assert e.trbs[31] == LinkTrb(s.base, s.pcs);
    }
  }

  /** So the invariant survives an enqueue exactly when it is safe. */
  lemma EnqueueIff(s: Ring, r: Request)
    requires Inv(s)
    ensures Inv(Enqueue(s, r)) <==> Safe(s)
  {
    if Safe(s) {
      EnqueueKeepsInv(s, r);
    } else {
      UnsafeStrands(s, r);
      if Inv(Enqueue(s, r)) { StopsOnlyWhenDone(Enqueue(s, r)); }
    }
  }

  function Fill(s: Ring, r: Request, n: nat): Ring
    requires Sized(s)
    ensures Sized(Fill(s, r, n))
  {
    if n == 0 then s else Enqueue(Fill(s, r, n - 1), r)
  }

  lemma {:induction false} Filled(base: nat, r: Request, n: nat)
    requires n <= 31
    ensures var s := Fill(Fresh(base), r, n);
            Inv(s) && Outstanding(s) == n && s.pointer == base && s.base == base && s.seen == []
  {
    hide BlockAt, SlotOk, LinkOk, NormalTrb, LinkTrb;
    if n == 0 {
      FreshInv(base);
    } else {
      Filled(base, r, n - 1);
      EnqueueKeepsInv(Fill(Fresh(base), r, n - 1), r);
    }
  }

  /** A driver that sends 32 requests before the controller takes one gets there: the controller then takes none. */
  lemma OverrunExample(base: nat, r: Request)
    ensures var s := Fill(Fresh(base), r, 31); Inv(s) && !Safe(s)
    ensures var e := Fill(Fresh(base), r, 32); Consume(e) == e && e.seen == [] && |e.sent| == 32
  {
    Filled(base, r, 31);
    AtBlock(base, 0);
    UnsafeStrands(Fill(Fresh(base), r, 31), r);
  }

  datatype Step = Put(r: Request) | Get

  function Do(s: Ring, step: Step): Ring
    requires Sized(s)
  {
    if step.Put? then Enqueue(s, step.r) else Consume(s)
  }

  function Run(s: Ring, steps: seq<Step>): Ring
    requires Sized(s)
    decreases |steps|
  {
    if steps == [] then s else Run(Do(s, steps[0]), steps[1..])
  }

  /** At every enqueue of the run at most 30 requests are outstanding afterwards. */
  predicate Bounded(s: Ring, steps: seq<Step>)
    requires Sized(s)
    decreases |steps|
  {
    steps == [] || ((steps[0].Put? ==> Outstanding(s) + 1 <= 30) && Bounded(Do(s, steps[0]), steps[1..]))
  }

  lemma {:induction false} RunKeepsInv(s: Ring, steps: seq<Step>)
    requires Inv(s) && Bounded(s, steps)
    ensures Inv(Run(s, steps))
    decreases |steps|
  {
    if steps != [] {
      if steps[0].Put? { EnqueueKeepsInv(s, steps[0].r); } else { ConsumeKeepsInv(s); }
      RunKeepsInv(Do(s, steps[0]), steps[1..]);
    }
  }

  /** Over every run from the ring as set up, over any number of laps: what the consumer has seen is what was sent, in
      order and once each, up to some point; it has seen all of it whenever it has nothing to do; and the address it
      holds is always that of a block of the ring. */
  lemma SeenInOrder(base: nat, steps: seq<Step>)
    requires Bounded(Fresh(base), steps)
    ensures var e := Run(Fresh(base), steps);
            && Sized(e) && e.seen <= e.sent && (Consume(e) == e ==> e.seen == e.sent)
            && exists i: nat :: Begins(base, e.pointer, i)
  {
    FreshInv(base);
    RunKeepsInv(Fresh(base), steps);
    var e := Run(Fresh(base), steps);
    if Consume(e) == e { StopsOnlyWhenDone(e); }
    RunKeepsBase(Fresh(base), steps);
  }

  lemma {:induction false} RunKeepsBase(s: Ring, steps: seq<Step>)
    requires Sized(s)
    ensures Run(s, steps).base == s.base
    decreases |steps|
  {
    if steps != [] { RunKeepsBase(Do(s, steps[0]), steps[1..]); }
  }

  /** A link that named any other address would lead the consumer there. */
  lemma LinkDecides(s: Ring, address: nat)
    requires Inv(s) && Dequeue(s) == 31 && address != s.base
    ensures var t := s.(trbs := s.trbs[31 := s.trbs[31].(parameter := address)]);
            Sized(t) && Consume(t).pointer == address && Consume(t).pointer != Consume(s).pointer
  {
    ConsumerSees(s);
    TrbFields(Request(0, 0), s.base, s.ccs);
  }

  // ---------- the driver's side ----------

  /** An endpoint's transfer ring. `s` is the state of the protocol. */
  class TransferRing {
    const ring: array<Trb>
    const base: nat
    var index: nat
    var cycle: nat
    ghost var s: Ring

    /** The set-up in `ConfigureEndpoint`. */
    constructor (base: nat)
      ensures Valid() && s == Fresh(base) && fresh(ring)
    {
      ring := new Trb[32](_ => ZERO);
      this.base := base;
      index, cycle := 0, 1;
      s := Fresh(base);
      new;
      assert ring[..] == s.trbs;
    }

    ghost predicate Valid()
      reads this, ring
    {
      Sized(s) && ring.Length == 32 && ring[..] == s.trbs && base == s.base && index == s.index && cycle == s.pcs
            && cycle < 2
    }

    method SendNormalTRB(buf: nat, len: nat)
      requires Valid()
      modifies this`index, this`cycle, this`s, ring
      ensures Valid() && s == Enqueue(old(s), Request(buf, len))
      ensures ring[old(index)].parameter == buf && ring[old(index)].status == len
      ensures old(index) == 30 ==> ring[31].parameter == base && index == 0 && cycle == 1 - old(cycle)
      ensures old(index) < 30 ==> index == old(index) + 1 && cycle == old(cycle)
      ensures forall i :: 0 <= i < 32 && i != old(index) && !(old(index) == 30 && i == 31) ==> ring[i] == old(ring[i])
    {
      s := Enqueue(s, Request(buf, len));
      var pcs := cycle;
      ring[index] := Trb(buf, len, pcs % 2 + 1024 + 32 + 4);
      index := index + 1;
      if index == 31 {
        ring[31] := Trb(base, 0, pcs % 2 + 6 * 1024 + 2);
        cycle := if cycle == 0 then 1 else 0;
        index := 0;
      }
    }
  }
}

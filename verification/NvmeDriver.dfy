/** The NVMe driver's command path and the description of its data buffers. */
module NvmeDriver {
  import opened Prelude
  import opened NvmeProtocol

  /** The fields of a submission entry the driver fills in. */
  datatype Command = Command(opcode: nat, nsid: nat, prp1: nat, prp2: nat, cdw10: nat, cdw11: nat, cdw12: nat)

  const BLANK: Command := Command(0, 0, 0, 0, 0, 0, 0)

  /** What the controller does between two looks at the completion queue. */
  datatype Device = Takes | Completes(code: nat)

  /** A queue pair: the memory and registers of the host, and the controller's side of them. `q` is the state of the
      protocol the pair is in. */
  class QueuePair {
    const sq: array<Command>
    const cq: array<nat>
    var tail: nat
    var head: nat
    var phase: nat
    var sqDoorbell: nat
    var cqDoorbell: nat
    var fetched: Option<Command>
    var sqHead: nat
    var cqTail: nat
    var postPhase: nat
    ghost var q: Queues<Command>

    constructor ()
      ensures Valid() && !q.waiting && q.sent == [] && fresh(sq) && fresh(cq)
    {
      sq := new Command[32](_ => BLANK);
      cq := new nat[32](_ => 0);
      tail, head, phase, sqDoorbell, cqDoorbell := 0, 0, 1, 0, 0;
      fetched, sqHead, cqTail, postPhase := None, 0, 0, 1;
      q := Fresh(BLANK);
      new;
      FreshInv(BLANK);
      assert sq[..] == q.sq && cq[..] == q.cq;
    }

    ghost predicate Synced()
      reads this, sq, cq
    {
      && sq.Length == 32 && cq.Length == 32 && sq[..] == q.sq && cq[..] == q.cq
      && tail == q.tail && head == q.head && phase == q.phase && sqDoorbell == q.sqDoorbell
         && cqDoorbell == q.cqDoorbell
      && fetched == q.fetched && sqHead == q.sqHead && cqTail == q.cqTail && postPhase == q.postPhase
    }

    ghost predicate Valid()
      reads this, sq, cq
    {
      Synced() && Inv(q)
    }

    /** One controller step. */
    method Controller(d: Device)
      requires Valid()
      modifies this`fetched, this`sqHead, this`cqTail, this`postPhase, this`q, cq
      ensures Valid() && q == Do(old(q), if d.Takes? then Fetch else Post(d.code))
    {
      hide Inv;
      SentBound(q);
      StepKeepsInv(q, if d.Takes? then Fetch else Post(d.code));
      q := Do(q, if d.Takes? then Fetch else Post(d.code));
      if d.Takes? {
        if fetched.None? && sqHead != sqDoorbell {
          fetched, sqHead := Some(sq[sqHead]), Wrap(sqHead);
        }
      } else if fetched.Some? {
        cq[cqTail] := 2 * d.code + postPhase;
        cqTail := Wrap(cqTail);
        if cqTail == 0 {
          postPhase := Toggle(postPhase);
        }
        fetched := None;
      }
    }

    /** `SendIOCommand` and `SendAdminCommand`, against a controller that makes the given steps, one per round of the
        poll loop. If the loop ends, the status is the one posted for this command; if the steps run out first, the
        controller has not posted it. */
    method SendCommand(cmd: Command, script: seq<Device>) returns (done: bool, status: nat)
      requires Valid() && !q.waiting
      modifies this, sq, cq
      ensures Valid() && q.sent == old(q.sent) + [cmd] && done == !q.waiting
      ensures done ==> |q.posted| == |q.sent| && q.posted[|q.sent| - 1] == (cmd, status / 2)
      ensures !done ==> |q.posted| < |q.sent|
    {
      hide Inv;
      SentBound(q);
      Place(cmd);
      var i := 0;
      done, status := false, 0;
      while cq[head] % 2 != phase
        invariant Valid() && head < 32 && i <= |script| && q.waiting && q.sent == old(q.sent) + [cmd]
        decreases |script| - i
      {
        if i == |script| {
          ReadyIff(q);
          SentBound(q);
          return;
        }
        Controller(script[i]);
        i := i + 1;
      }
      PollReadsOwn(q);
      ReadyIff(q);
      ghost var k := |q.codes|;
      status := Advance();
      assert q.codes[k] == status / 2 == q.posted[k].1;
      done := true;
    }

    /** Puts the command into the submission queue and rings the doorbell. */
    method Place(cmd: Command)
      requires Valid() && !q.waiting
      modifies this`tail, this`sqDoorbell, this`q, sq
      ensures Valid() && q == Do(old(q), Submit(cmd))
    {
      hide Inv;
      SentBound(q);
      StepKeepsInv(q, Submit(cmd));
      q := Do(q, Submit(cmd));
      sq[tail] := cmd;
      tail := tail + 1;
      if tail >= DEPTH {
        tail := 0;
      }
      sqDoorbell := tail;
    }

    /** Moves the completion head on and reads the status of the entry before it. */
    method Advance() returns (status: nat)
      requires Valid() && q.waiting && Ready(q)
      modifies this`head, this`phase, this`cqDoorbell, this`q
      ensures Valid() && Sized(old(q)) && q == Do(old(q), Poll) && q.codes == old(q.codes) + [status / 2]
    {
      hide Inv;
      SentBound(q);
      StepKeepsInv(q, Poll);
      q := Do(q, Poll);
      head := head + 1;
      if head >= DEPTH {
        head := 0;
        phase := if phase == 0 then 1 else 0;
      }
      cqDoorbell := head;
      status := cq[if head == 0 then DEPTH - 1 else head - 1];
    }
  }

  lemma SentBound(q: Queues<Command>)
    requires Inv(q)
    ensures |q.posted| <= |q.sent| && Sized(q)
  {}

  // ---------- physical region pages ----------

  /** Room in the page the buffer starts in. */
  function FirstRoom(addr: nat): (n: nat)
    ensures 0 < n <= 4096
  {
    4096 - addr % 4096
  }

  /** Pages the buffer touches after its first. */
  function PagesAfterFirst(addr: nat, size: nat): nat {
    if size <= FirstRoom(addr) then 0 else (size - FirstRoom(addr) + 4095) / 4096
  }

  /** The page addresses a controller uses for a transfer of `size` bytes: the second field is a page address when two
      pages are touched, and the address of a list of them when there are more. */
  function PageEntries(prp1: nat, prp2: nat, list: seq<nat>, size: nat): seq<nat> {
    var n := PagesAfterFirst(prp1, size);
    if n == 0 then [prp1] else if n == 1 then [prp1, prp2] else [prp1] + (if n <= |list| then list[..n] else list)
  }

  /** The address of byte j of the transfer: the first page from its offset on, the later ones from their start. */
  function ByteAddress(entries: seq<nat>, j: nat): nat
    requires entries != []
  {
    var room := FirstRoom(entries[0]);
    if j < room then entries[0] + j
    else
      var k := 1 + (j - room) / 4096;
      if k < |entries| then entries[k] + (j - room) % 4096 else 0
  }

  /** The entries describe exactly the bytes from addr on, in order. */
  ghost predicate Describes(entries: seq<nat>, addr: nat, size: nat) {
    && |entries| == 1 + PagesAfterFirst(addr, size) && entries[0] == addr
    && (forall i: nat :: 0 < i < |entries| ==> entries[i] % 4096 == 0)
    && (forall j: nat :: j < size ==> ByteAddress(entries, j) == addr + j)
  }

  /** The start of the page i pages after the one of addr. */
  function PageAfter(addr: nat, i: nat): nat { addr - addr % 4096 + 4096 * i }

  /** Consecutive page starts describe the buffer. */
  lemma PagesDescribe(entries: seq<nat>, addr: nat, size: nat)
    requires |entries| == 1 + PagesAfterFirst(addr, size) && entries[0] == addr
    requires forall i: nat :: 0 < i < |entries| ==> entries[i] == PageAfter(addr, i)
    ensures Describes(entries, addr, size)
  {
    forall i: nat | 0 < i < |entries| ensures entries[i] % 4096 == 0 { AlignedPage(addr, i); }
    forall j: nat | j < size ensures ByteAddress(entries, j) == addr + j {
      var room := FirstRoom(addr);
      if j >= room {
        var k := 1 + (j - room) / 4096;
        assert k < |entries|;
        assert entries[k] == PageAfter(addr, k);
      }
    }
  }

  lemma AlignedPage(addr: nat, i: nat)
    ensures PageAfter(addr, i) % 4096 == 0
  {
    var a := addr / 4096;
    assert PageAfter(addr, i) == 4096 * (a + i);
  }

  /** The list page holds 512 entries: it suffices exactly when the buffer ends within 512 pages after its first. */
  lemma ListFits(addr: nat, size: nat)
    ensures PagesAfterFirst(addr, size) <= 512 <==> size <= FirstRoom(addr) + 512 * 4096
  {}

  /** `SetupPRPs`. `page` is the list page the allocator returns. */
  method SetupPRPs(addr: nat, size: nat, page: nat, list: array<nat>) returns (prp1: nat, prp2: nat, used: bool)
    requires size < 0x1_0000_0000 && addr + size <= 0x1_0000_0000_0000_0000 && list.Length == 512
    requires PagesAfterFirst(addr, size) <= 512
    modifies list
    ensures Describes(PageEntries(prp1, prp2, list[..], size), addr, size)
    ensures used <==> PagesAfterFirst(addr, size) >= 2
    ensures used ==> prp2 == page
    ensures !used ==> list[..] == old(list[..])
  {
    prp1, prp2, used := addr, 0, false;
    var offset := addr % 4096;
    var capacity := 4096 - offset;
    if size <= capacity {
      PagesDescribe([addr], addr, size);
      return;
    }
    var remaining := size - capacity;
    var next := addr - offset + 4096;
    if remaining <= 4096 {
      prp2 := next;
      assert PagesAfterFirst(addr, size) == 1;
      PagesDescribe([addr, next], addr, size);
      return;
    }
    var pages := (remaining + 4095) / 4096;
    assert 2 <= pages == PagesAfterFirst(addr, size);
    prp2, used := page, true;
    FillList(list, addr, next, pages);
    assert list[..][..pages] == list[..pages];
    PagesDescribe([addr] + list[..pages], addr, size);
  }

  /** The list loop: consecutive page addresses. */
  method FillList(list: array<nat>, ghost addr: nat, next: nat, pages: nat)
    requires pages <= list.Length && next == PageAfter(addr, 1)
    modifies list
    ensures forall i: nat :: i < pages ==> list[i] == PageAfter(addr, i + 1)
  {
    var current := next;
    for i := 0 to pages
      invariant current == PageAfter(addr, i + 1)
      invariant forall k: nat :: k < i ==> list[k] == PageAfter(addr, k + 1)
    {
      list[i] := current;
      current := current + 4096;
    }
  }
}

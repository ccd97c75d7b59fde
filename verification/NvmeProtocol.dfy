/** One submission and completion queue pair, with host and controller as interleaved steps. */
module NvmeProtocol {
  import opened Prelude

  const DEPTH: nat := 32

  /** Shared memory, both sides' registers, and the history of commands sent, completions posted and codes read. `lap`
      fields count how often an index has wrapped. Commands are values of type C; a completion entry is the 16-bit
      status word, whose lowest bit is the phase tag. */
  datatype Queues<!C> = Queues(
    sq: seq<C>, cq: seq<nat>,
    tail: nat, head: nat, phase: nat, waiting: bool, sqDoorbell: nat, cqDoorbell: nat,
    fetched: Option<C>, sqHead: nat, cqTail: nat, postPhase: nat,
    sent: seq<C>, posted: seq<(C, nat)>, codes: seq<nat>, hostLap: nat, postLap: nat)

  datatype Step<C> =
    | Submit(cmd: C)     // host: place a command and ring the doorbell
    | Fetch              // controller: take the next command
    | Post(code: nat)    // controller: write the completion of the command it holds
    | Poll               // host: look at the head of the completion queue once

  function Wrap(i: nat): nat { if i + 1 >= 32 then 0 else i + 1 }

  /** The phase tag of a lap: entries start as zero, the first lap writes ones. */
  function PhaseOf(lap: nat): nat { if lap % 2 == 0 then 1 else 0 }

  function Toggle(phase: nat): nat { if phase == 0 then 1 else 0 }

  /** The poll loop ends. */
  predicate Ready<C>(s: Queues<C>)
    requires s.head < |s.cq|
  {
    s.cq[s.head] % 2 == s.phase
  }

  function Submitted<C>(s: Queues<C>, cmd: C): Queues<C>
    requires s.tail < |s.sq|
  {
    s.(sq := s.sq[s.tail := cmd], tail := Wrap(s.tail), sqDoorbell := Wrap(s.tail), waiting := true,
       sent := s.sent + [cmd])
  }

  /** The head moves on, and the status is read at the entry before it. */
  function Polled<C>(s: Queues<C>): Queues<C>
    requires s.head < 32 && |s.cq| == 32
  {
    var head := Wrap(s.head);
    var before := if head == 0 then 31 else head - 1;
    s.(head := head, phase := if head == 0 then Toggle(s.phase) else s.phase, cqDoorbell := head, waiting := false,
       codes := s.codes + [s.cq[before] / 2], hostLap := if head == 0 then s.hostLap + 1 else s.hostLap)
  }

  function Posted<C>(s: Queues<C>, code: nat): Queues<C>
    requires s.fetched.Some? && s.cqTail < |s.cq|
  {
    var tail := Wrap(s.cqTail);
    s.(cq := s.cq[s.cqTail := 2 * code + s.postPhase], cqTail := tail, fetched := None,
       postPhase := if tail == 0 then Toggle(s.postPhase) else s.postPhase,
       postLap := if tail == 0 then s.postLap + 1 else s.postLap,
       posted := s.posted + [(s.fetched.value, code)])
  }

  function Do<C>(s: Queues<C>, step: Step<C>): Queues<C>
    requires Sized(s)
  {
    match step
    case Submit(cmd) => if s.waiting then s else Submitted(s, cmd)
    case Fetch =>
      if s.fetched.None? && s.sqHead != s.sqDoorbell then s.(fetched := Some(s.sq[s.sqHead]), sqHead := Wrap(s.sqHead))
      else s
    case Post(code) => if s.fetched.Some? then Posted(s, code) else s
    case Poll => if s.waiting && Ready(s) then Polled(s) else s
  }

  predicate Sized<C>(s: Queues<C>) {
    |s.sq| == 32 && |s.cq| == 32 && s.tail < 32 && s.head < 32 && s.sqHead < 32 && s.cqTail < 32
  }

  /** What slot i of the completion queue holds: the completion of this lap, of the lap before, or nothing yet. */
  ghost predicate SlotOk<C>(s: Queues<C>, i: nat)
    requires |s.cq| == 32 && i < 32 && |s.posted| == 32 * s.postLap + s.cqTail
  {
    if i < s.cqTail then s.cq[i] == 2 * s.posted[32 * s.postLap + i].1 + PhaseOf(s.postLap)
    else if s.postLap == 0 then s.cq[i] == 0
    else s.cq[i] == 2 * s.posted[32 * (s.postLap - 1) + i].1 + PhaseOf(s.postLap - 1)
  }

  /** The command under way is not fetched, held by the controller, or completed. */
  ghost predicate UnderWay<C>(s: Queues<C>)
    requires Sized(s)
  {
    if !s.waiting then s.sqHead == s.tail && s.fetched.None? && |s.posted| == |s.sent| == |s.codes|
    else
      && |s.sent| == |s.codes| + 1
      && (|| (Wrap(s.sqHead) == s.tail && s.fetched.None? && |s.posted| == |s.codes|
         && s.sq[s.sqHead] == s.sent[|s.codes|])
          || (s.sqHead == s.tail && s.fetched == Some(s.sent[|s.codes|]) && |s.posted| == |s.codes|)
          || (s.sqHead == s.tail && s.fetched.None? && |s.posted| == |s.sent|))
  }

  ghost predicate Inv<C>(s: Queues<C>) {
    && Sized(s) && s.sqDoorbell == s.tail && s.cqDoorbell == s.head && UnderWay(s)
    && |s.posted| == 32 * s.postLap + s.cqTail && s.postPhase == PhaseOf(s.postLap)
    && |s.codes| == 32 * s.hostLap + s.head && s.phase == PhaseOf(s.hostLap)
    && (forall i: nat :: i < 32 ==> SlotOk(s, i))
    && (forall k: nat :: k < |s.posted| ==> k < |s.sent| && s.posted[k].0 == s.sent[k])
    && (forall k: nat :: k < |s.codes| ==> k < |s.posted| && s.codes[k] == s.posted[k].1)
  }

  /** The queues as set up: cleared memory, phase tag one. */
  function Fresh<C>(blank: C): Queues<C> {
    Queues(seq(32, _ => blank), seq(32, _ => 0), 0, 0, 1, false, 0, 0, None, 0, 0, 1, [], [], [], 0, 0)
  }

  lemma FreshInv<C>(blank: C)
    ensures Inv(Fresh(blank))
  {}

  /** The poll succeeds exactly when the controller has posted the completion of the command under way: a stale entry
      carries the other phase tag. */
  lemma ReadyIff<C>(s: Queues<C>)
    requires Inv(s) && s.waiting
    ensures Ready(s) <==> |s.posted| == |s.sent|
    ensures Ready(s) ==>
              |s.codes| < |s.posted| && s.cq[s.head] / 2 == s.posted[|s.codes|].1
                  && s.posted[|s.codes|].0 == s.sent[|s.codes|]
  {
    assert SlotOk(s, s.head);
    if |s.posted| == |s.codes| {
      assert s.postLap == s.hostLap && s.cqTail == s.head;
    } else {
      assert |s.posted| == |s.codes| + 1;
      if s.head == 31 {
        assert s.postLap == s.hostLap + 1 && s.cqTail == 0;
      } else {
        assert s.postLap == s.hostLap && s.cqTail == s.head + 1;
      }
    }
  }

  /** The status read after the head has moved is the one of the command under way. */
  lemma PollReadsOwn<C>(s: Queues<C>)
    requires Inv(s) && s.waiting && Ready(s)
    ensures var e := Do(s, Poll);
            && |s.codes| < |s.posted| && |s.sent| == |s.codes| + 1 && e.codes == s.codes + [s.posted[|s.codes|].1]
               && s.posted[|s.codes|].0 == s.sent[|s.sent| - 1]
            && !e.waiting && e.posted == s.posted
  {
    ReadyIff(s);
  }

  /** Every interleaving of host and controller steps keeps the invariant. */
  lemma StepKeepsInv<C>(s: Queues<C>, step: Step<C>)
    requires Inv(s)
    ensures Inv(Do(s, step))
  {
    match step
    case Submit(cmd) => SubmitKeeps(s, cmd);
    case Fetch => FetchKeeps(s);
    case Post(code) => PostKeeps(s, code);
    case Poll => PollKeeps(s);
  }

  lemma SubmitKeeps<C>(s: Queues<C>, cmd: C)
    requires Inv(s)
    ensures Inv(Do(s, Submit(cmd)))
  {
    hide SlotOk;
    SlotsSame(s, Do(s, Submit(cmd)));
  }

  lemma FetchKeeps<C>(s: Queues<C>)
    requires Inv(s)
    ensures Inv(Do(s, Fetch))
  {
    hide SlotOk;
    SlotsSame(s, Do(s, Fetch));
  }

  lemma PollKeeps<C>(s: Queues<C>)
    requires Inv(s)
    ensures Inv(Do(s, Poll))
  {
    hide SlotOk, Ready;
    if s.waiting {
      ReadyIff(s);
      if Ready(s) { SlotsSame(s, Polled(s)); }
    }
  }

  lemma PostKeeps<C>(s: Queues<C>, code: nat)
    requires Inv(s)
    ensures Inv(Do(s, Post(code)))
  {
    hide SlotOk;
    if s.fetched.Some? { PostSlots(s, code); }
  }

  /** Steps that leave the completion queue alone. */
  lemma SlotsSame<C>(s: Queues<C>, e: Queues<C>)
    requires |s.cq| == 32 && |s.posted| == 32 * s.postLap + s.cqTail && forall i: nat :: i < 32 ==> SlotOk(s, i)
    requires e.cq == s.cq && e.posted == s.posted && e.postLap == s.postLap && e.cqTail == s.cqTail
    ensures forall i: nat :: i < 32 ==> SlotOk(e, i)
  {
    forall i: nat | i < 32 ensures SlotOk(e, i) { assert SlotOk(s, i); }
  }

  lemma PostSlots<C>(s: Queues<C>, code: nat)
    requires Sized(s) && s.fetched.Some? && |s.posted| == 32 * s.postLap + s.cqTail && s.postPhase == PhaseOf(s.postLap)
    requires forall i: nat :: i < 32 ==> SlotOk(s, i)
    ensures var e := Posted(s, code);
            |e.posted| == 32 * e.postLap + e.cqTail && e.postPhase == PhaseOf(e.postLap) && forall i: nat :: i < 32 ==>
                SlotOk(e, i)
  {
    var e := Posted(s, code);
    forall i: nat | i < 32 ensures SlotOk(e, i) { assert SlotOk(s, i); }
  }

  function Run<C>(s: Queues<C>, steps: seq<Step<C>>): Queues<C>
    requires Sized(s)
    decreases |steps|
  {
    if steps == [] then s else Run(Do(s, steps[0]), steps[1..])
  }

  lemma {:induction false} RunKeepsInv<C>(s: Queues<C>, steps: seq<Step<C>>)
    requires Inv(s)
    ensures Inv(Run(s, steps))
    decreases |steps|
  {
    if steps != [] {
      StepKeepsInv(s, steps[0]);
      RunKeepsInv(Do(s, steps[0]), steps[1..]);
    }
  }

  /** Over every run from the set-up queues, across any number of wraps: the code read for command k is the code the
      controller posted for command k, and nothing is read that was not posted. */
  lemma EveryRun<C>(blank: C, steps: seq<Step<C>>)
    ensures var e := Run(Fresh(blank), steps);
            && |e.codes| <= |e.posted| <= |e.sent| <= |e.codes| + 1
            && (forall k: nat :: k < |e.codes| ==> e.codes[k] == e.posted[k].1 && e.posted[k].0 == e.sent[k])
            && (e.waiting ==> e.head < 32 == |e.cq| && (Ready(e) <==> |e.posted| == |e.sent|))
  {
    FreshInv(blank);
    RunKeepsInv(Fresh(blank), steps);
    var e := Run(Fresh(blank), steps);
    if e.waiting { ReadyIff(e); }
    forall k: nat | k < |e.codes| ensures e.codes[k] == e.posted[k].1 && e.posted[k].0 == e.sent[k] {}
  }
}

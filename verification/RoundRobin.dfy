/** The scheduler as a state machine over its tasks. */
module RoundRobin {
  import opened Prelude

  datatype Status = READY | RUNNING | BLOCKED | TERMINATED

  /** The ready queue, the current task, and the state of every task. */
  datatype Sched<!T(==)> = Sched(queue: seq<T>, current: Option<T>, status: map<T, Status>, apps: set<T>, enabled: bool)

  datatype Step<T> =
    | Enqueue(task: T)
    | Block(task: T)
    | Wake(task: T)
    | Exit
    | Schedule(voluntary: bool)
    | SetEnabled(on: bool)

  /** The queue without one of its tasks. */
  function Without<T(==)>(q: seq<T>, t: T): seq<T> {
    if q == [] then [] else if q[0] == t then q[1..] else [q[0]] + Without(q[1..], t)
  }

  predicate Running<T(==)>(s: Sched<T>) {
    s.current.Some? && s.current.value in s.status && s.status[s.current.value] == RUNNING
  }

  /** `Schedule` switches: there is a next task, it is not the current one, and the current one may be preempted. */
  predicate Effective<T(==)>(s: Sched<T>, voluntary: bool) {
    && s.enabled && s.queue != [] && s.current != Some(s.queue[0])
    && !(!voluntary && s.current.Some? && s.current.value in s.apps && Running(s))
  }

  function Switch<T(==)>(s: Sched<T>): Sched<T>
    requires s.queue != []
  {
    var next := s.queue[0];
    if Running(s) then
      s.(queue := s.queue[1..] + [s.current.value], current := Some(next),
         status := s.status[s.current.value := READY][next := RUNNING])
    else
      s.(queue := s.queue[1..], current := Some(next), status := s.status[next := RUNNING])
  }

  function Put<T(==)>(s: Sched<T>, t: T): Sched<T> {
    if t in s.queue then s else s.(queue := s.queue + [t], status := s.status[t := READY])
  }

  function Do<T(==)>(s: Sched<T>, step: Step<T>): Sched<T> {
    match step
    case Enqueue(t) => Put(s, t)
    case Block(t) => s.(queue := Without(s.queue, t), status := s.status[t := BLOCKED])
    case Wake(t) => if t in s.status && s.status[t] == BLOCKED then Put(s, t) else s
    case Exit =>
      if Exits(s) then
        s.(queue := Without(s.queue, s.current.value), current := None,
           status := s.status[s.current.value := TERMINATED])
      else s
    case Schedule(voluntary) => if Effective(s, voluntary) then Switch(s) else s
    case SetEnabled(on) => s.(enabled := on)
  }

  /** The exit call ends the current task if it is an app. */
  predicate Exits<T(==)>(s: Sched<T>) { s.current.Some? && s.current.value in s.apps }

  /** The step speaks about a task of the system. */
  predicate Known<T(==)>(s: Sched<T>, step: Step<T>) {
    (step.Enqueue? ==> step.task in s.status) && (step.Block? ==> step.task in s.status)
        && (step.Wake? ==> step.task in s.status)
  }

  ghost predicate Distinct<T>(q: seq<T>) { forall i, j :: 0 <= i < j < |q| ==> q[i] != q[j] }

  /** At most one task is running; it is the current one and not queued. Queued tasks are ready and distinct. */
  ghost predicate Inv<T>(s: Sched<T>) {
    && Distinct(s.queue) && (s.current.Some? ==> s.current.value in s.status)
    && (forall i :: 0 <= i < |s.queue| ==> s.queue[i] in s.status && s.status[s.queue[i]] == READY)
    && (forall t :: t in s.status && s.status[t] == RUNNING ==> s.current == Some(t))
  }

  lemma {:induction false} WithoutAt<T>(q: seq<T>, i: nat)
    requires Distinct(q) && i < |q|
    ensures Without(q, q[i]) == q[..i] + q[i + 1..]
  {
    if i > 0 { WithoutAt(q[1..], i - 1); }
  }

  lemma {:induction false} WithoutAbsent<T>(q: seq<T>, t: T)
    requires t !in q
    ensures Without(q, t) == q
  {
    if q != [] { WithoutAbsent(q[1..], t); }
  }

  lemma WithoutMembers<T>(q: seq<T>, t: T)
    requires Distinct(q)
    ensures Distinct(Without(q, t)) && t !in Without(q, t) && forall i :: 0 <= i < |Without(q, t)| ==>
              Without(q, t)[i] in q
  {
    if t in q {
      var i :| 0 <= i < |q| && q[i] == t;
      WithoutAt(q, i);
    } else {
      WithoutAbsent(q, t);
    }
  }

  /** Every step keeps the invariant. */
  lemma StepKeepsInv<T>(s: Sched<T>, step: Step<T>)
    requires Inv(s) && Known(s, step)
    ensures Inv(Do(s, step)) && Do(s, step).status.Keys == s.status.Keys
  {
    hide Inv, Put, Switch;
    match step
    case Block(t) =>
      TakeOutKeepsInv(s, t, s.current, BLOCKED);
    case Exit =>
      CurrentIsKnown(s);
      if Exits(s) { TakeOutKeepsInv(s, s.current.value, None, TERMINATED); }
    case Schedule(voluntary) => if Effective(s, voluntary) { SwitchKeepsInv(s); }
    case Enqueue(t) => PutKeepsInv(s, t);
    case Wake(t) => PutKeepsInv(s, t);
    case SetEnabled(on) => EnabledKeepsInv(s, on);
  }

  lemma EnabledKeepsInv<T>(s: Sched<T>, on: bool)
    requires Inv(s)
    ensures Inv(s.(enabled := on))
  {}

  lemma CurrentIsKnown<T>(s: Sched<T>)
    requires Inv(s)
    ensures s.current.Some? ==> s.current.value in s.status
  {}

  lemma PutKeepsInv<T>(s: Sched<T>, t: T)
    requires Inv(s) && t in s.status
    ensures Inv(Put(s, t)) && Put(s, t).status.Keys == s.status.Keys
  {}

  lemma SwitchKeepsInv<T>(s: Sched<T>)
    requires Inv(s) && s.queue != [] && s.current != Some(s.queue[0])
    ensures Inv(Switch(s)) && Switch(s).status.Keys == s.status.Keys
  {
    var e, next := Switch(s), s.queue[0];
    assert forall i :: 0 <= i < |s.queue| - 1 ==> e.queue[i] == s.queue[i + 1];
  }

  lemma TakeOutKeepsInv<T>(s: Sched<T>, t: T, current: Option<T>, status: Status)
    requires Inv(s) && t in s.status && status != RUNNING
             && (current == s.current || (current == None && s.current == Some(t)))
    ensures Inv(s.(queue := Without(s.queue, t), current := current, status := s.status[t := status]))
    ensures s.status[t := status].Keys == s.status.Keys
  {
    WithoutMembers(s.queue, t);
    var q := Without(s.queue, t);
    forall i | 0 <= i < |q| ensures q[i] != t { assert q[i] in q; }
  }

  function Run<T(==)>(s: Sched<T>, steps: seq<Step<T>>): Sched<T>
    decreases |steps|
  {
    if steps == [] then s else Run(Do(s, steps[0]), steps[1..])
  }

  ghost predicate AllKnown<T>(s: Sched<T>, steps: seq<Step<T>>) {
    forall i :: 0 <= i < |steps| ==> Known(s, steps[i])
  }

  lemma {:induction false} RunKeepsInv<T>(s: Sched<T>, steps: seq<Step<T>>)
    requires Inv(s) && AllKnown(s, steps)
    ensures Inv(Run(s, steps))
    decreases |steps|
  {
    if steps != [] {
      assert Known(s, steps[0]);
      StepKeepsInv(s, steps[0]);
      forall i | 0 <= i < |steps[1..]| ensures Known(Do(s, steps[0]), steps[1..][i]) { assert Known(s, steps[i + 1]); }
      RunKeepsInv(Do(s, steps[0]), steps[1..]);
    }
  }

  /** In every run from a sound state at most one task is running, and it is the current one, outside the queue. */
  lemma OneRunning<T>(s: Sched<T>, steps: seq<Step<T>>, t: T, u: T)
    requires Inv(s) && AllKnown(s, steps)
    ensures var e := Run(s, steps);
            t in e.status && u in e.status && e.status[t] == RUNNING && e.status[u] == RUNNING ==>
              t == u && e.current == Some(t) && t !in e.queue
  {
    RunKeepsInv(s, steps);
  }

  /** The tasks a switch deals with: the queue, and the current task if it runs. */
  function Held<T>(s: Sched<T>): multiset<T> {
    multiset(s.queue) + if Running(s) then multiset{s.current.value} else multiset{}
  }

  /** Scheduling neither loses nor duplicates a task. */
  lemma ScheduleConserves<T>(s: Sched<T>, voluntary: bool)
    requires Inv(s)
    ensures Held(Do(s, Schedule(voluntary))) == Held(s)
    ensures var e := Do(s, Schedule(voluntary));
            forall t :: t in s.status && !(t in Held(s)) ==> e.status[t] == s.status[t]
  {
    if Effective(s, voluntary) {
      assert s.queue == [s.queue[0]] + s.queue[1..];
    }
  }

  /** The queue operations of a switch, one after the other, give the queue of the switch. */
  lemma SwitchQueue<T>(s: Sched<T>)
    requires Inv(s) && s.queue != [] && s.current != Some(s.queue[0])
    ensures s.queue[0] in s.status && Without(s.queue, s.queue[0]) == s.queue[1..]
    ensures Running(s) ==>
              var c := s.current.value;
              c !in s.queue && Without(s.queue, c) == s.queue
                  && Without(s.queue + [c], s.queue[0]) == s.queue[1..] + [c]
  {
    if Running(s) {
      var c := s.current.value;
      assert c !in s.queue;
      WithoutAbsent(s.queue, c);
      assert (s.queue + [c])[1..] == s.queue[1..] + [c];
    }
  }

  // ---------- turns ----------

  /** Switches made in a run. */
  function Switches<T(==)>(s: Sched<T>, steps: seq<Step<T>>): nat
    decreases |steps|
  {
    if steps == [] then 0 else (if Switching(s, steps[0]) then 1 else 0) + Switches(Do(s, steps[0]), steps[1..])
  }

  predicate Switching<T(==)>(s: Sched<T>, step: Step<T>) { step.Schedule? && Effective(s, step.voluntary) }

  /** The task a step takes out of the queue other than by scheduling it. */
  function Removed<T(==)>(s: Sched<T>, step: Step<T>): Option<T> {
    if step.Block? then Some(step.task) else if step.Exit? && Exits(s) then s.current else None
  }

  /** Until the task at position k gets its turn, no task up to position k blocks or ends. */
  predicate Undisturbed<T(==)>(s: Sched<T>, steps: seq<Step<T>>, k: nat)
    requires k < |s.queue|
    decreases |steps|
  {
    if steps == [] then true
    else
      var r, e := Removed(s, steps[0]), Do(s, steps[0]);
      if Switching(s, steps[0]) then k == 0 || (k - 1 < |e.queue| && Undisturbed(e, steps[1..], k - 1))
      else (r.Some? ==> r.value !in s.queue[..k + 1]) && k < |e.queue| && Undisturbed(e, steps[1..], k)
  }

  lemma {:induction false} WithoutBehind<T>(q: seq<T>, t: T, n: nat)
    requires n <= |q| && t !in q[..n]
    ensures |Without(q, t)| >= n && Without(q, t)[..n] == q[..n]
  {
    if n > 0 {
      assert q[0] == q[..n][0];
      assert q[1..][..n - 1] == q[..n][1..];
      WithoutBehind(q[1..], t, n - 1);
    }
  }

  lemma StepMoves<T>(s: Sched<T>, step: Step<T>, k: nat)
    requires Inv(s) && Known(s, step) && k < |s.queue|
    requires Removed(s, step).Some? ==> Removed(s, step).value !in s.queue[..k + 1]
    ensures var e := Do(s, step);
            if Switching(s, step) then
              if k == 0 then e.current == Some(s.queue[0]) else k - 1 < |e.queue| && e.queue[k - 1] == s.queue[k]
            else k < |e.queue| && e.queue[k] == s.queue[k]
  {
    if Removed(s, step).Some? {
      WithoutBehind(s.queue, Removed(s, step).value, k + 1);
      var q := Without(s.queue, Removed(s, step).value);
      assert q[k] == q[..k + 1][k] == s.queue[..k + 1][k];
    }
  }

  /** After n switches, at most k of them, the task that was at position k is at position k - n. */
  lemma {:induction false} PositionAfter<T>(s: Sched<T>, steps: seq<Step<T>>, k: nat)
    requires Inv(s) && AllKnown(s, steps) && k < |s.queue| && Undisturbed(s, steps, k) && Switches(s, steps) <= k
    ensures var e := Run(s, steps); k - Switches(s, steps) < |e.queue| && e.queue[k - Switches(s, steps)] == s.queue[k]
    decreases |steps|
  {
    if steps != [] {
      assert Known(s, steps[0]);
      StepKeepsInv(s, steps[0]);
      StepMoves(s, steps[0], k);
      var e := Do(s, steps[0]);
      forall i | 0 <= i < |steps[1..]| ensures Known(e, steps[1..][i]) { assert Known(s, steps[i + 1]); }
      PositionAfter(e, steps[1..], if Switching(s, steps[0]) then k - 1 else k);
    }
  }

  /** The task at position k becomes current with switch k + 1: it is still queued after any run with at most k
      switches, and the switch after a run with exactly k makes it the running task. */
  lemma TurnComes<T>(s: Sched<T>, steps: seq<Step<T>>, k: nat, voluntary: bool)
    requires Inv(s) && AllKnown(s, steps) && k < |s.queue| && Undisturbed(s, steps, k)
    ensures Switches(s, steps) <= k ==>
              s.queue[k] in Run(s, steps).queue && s.queue[k] in Run(s, steps).status
                  && Run(s, steps).status[s.queue[k]] == READY
    ensures Switches(s, steps) == k && Effective(Run(s, steps), voluntary) ==>
              var e := Do(Run(s, steps), Schedule(voluntary));
              e.current == Some(s.queue[k]) && e.status[s.queue[k]] == RUNNING
  {
    RunKeepsInv(s, steps);
    if Switches(s, steps) <= k {
      PositionAfter(s, steps, k);
    }
  }

  // ---------- a task woken before it was switched out ----------

  /** The current task is at the head of the queue: it blocked and was woken before the next switch. */
  predicate Stalled<T(==)>(s: Sched<T>) { s.queue != [] && s.current == Some(s.queue[0]) }

  /** A voluntary switch of an enabled scheduler happens exactly when some task is queued and the current one is not at
      the head. */
  lemma YieldSwitchesIff<T>(s: Sched<T>)
    requires Inv(s) && s.enabled
    ensures Do(s, Schedule(true)) != s <==> s.queue != [] && !Stalled(s)
  {
    if s.queue != [] && !Stalled(s) {
      assert Do(s, Schedule(true)).current == Some(s.queue[0]);
    }
  }

  /** A timer tick switches exactly when the scheduler is enabled, some task is queued, the current one is not at the
      head, and the current one is not an app in the running state: running apps are left alone, everything else is
      not. */
  lemma TickSwitchesIff<T>(s: Sched<T>)
    requires Inv(s)
    ensures Do(s, Schedule(false)) != s <==>
              && s.enabled && s.queue != [] && !Stalled(s)
              && !(s.current.Some? && s.current.value in s.apps && s.status[s.current.value] == RUNNING)
  {
    if s.queue != [] && !Stalled(s) { assert Do(s, Schedule(true)).current != s.current || !s.enabled; }
  }

  /** A disabled scheduler switches on neither. */
  lemma DisabledKeeps<T>(s: Sched<T>, voluntary: bool)
    requires !s.enabled
    ensures Do(s, Schedule(voluntary)) == s
  {}

  /** What a switch does: the head of the queue runs; a task that was running goes to the end of the queue and is
      ready, one that was not is left where it is; no other task changes. */
  lemma SwitchEffect<T>(s: Sched<T>, voluntary: bool, t: T)
    requires Inv(s) && Do(s, Schedule(voluntary)) != s && t in s.status
    ensures var e, ran := Do(s, Schedule(voluntary)), s.current.Some? && s.status[s.current.value] == RUNNING;
            && s.queue != [] && e.current == Some(s.queue[0]) && e.apps == s.apps && e.enabled
            && e.queue == (if ran then s.queue[1..] + [s.current.value] else s.queue[1..])
            && t in e.status && e.status[t] == if t == s.queue[0] then RUNNING
                                               else if ran && t == s.current.value then READY else s.status[t]
  {}

  /** A timer tick takes the processor from a running kernel task when another task is queued. */
  lemma TickPreempts<T>(s: Sched<T>)
    requires Inv(s) && s.enabled && Running(s) && s.current.value !in s.apps && s.queue != []
    ensures var e := Do(s, Schedule(false));
            && e.current == Some(s.queue[0]) && e.status[s.queue[0]] == RUNNING
            && e.queue == s.queue[1..] + [s.current.value] && e.status[s.current.value] == READY
  {
    TickSwitchesIff(s);
    SwitchEffect(s, false, s.queue[0]);
    SwitchEffect(s, false, s.current.value);
  }

  /** The step is no yield, no exit and no block of the task. */
  predicate Bystander<T(==)>(step: Step<T>, t: T) {
    step != Schedule(true) && !step.Exit? && step != Block(t) && step != Enqueue(t)
  }

  /** Over every run without a yield, an exit or a block of its own, a running app stays the current task, running:
      however many ticks, wake-ups and new tasks there are. */
  lemma {:induction false} AppKeepsRunning<T>(s: Sched<T>, steps: seq<Step<T>>)
    requires Inv(s) && AllKnown(s, steps) && Running(s) && s.current.value in s.apps
    requires forall i :: 0 <= i < |steps| ==> Bystander(steps[i], s.current.value)
    ensures var e := Run(s, steps); e.current == s.current && Running(e) && Switches(s, steps) == 0
    decreases |steps|
  {
    if steps != [] {
      assert Known(s, steps[0]) && Bystander(steps[0], s.current.value);
      StepKeepsInv(s, steps[0]);
      var e := Do(s, steps[0]);
      forall i | 0 <= i < |steps[1..]| ensures Known(e, steps[1..][i]) && Bystander(steps[1..][i], s.current.value) {
        assert Known(s, steps[i + 1]) && Bystander(steps[i + 1], s.current.value);
      }
      AppKeepsRunning(e, steps[1..]);
    }
  }

  // ---------- the other steps ----------

  /** Waking a task changes something exactly when it is blocked: it is then ready, at the end of the queue. */
  lemma WakeIff<T>(s: Sched<T>, t: T)
    requires Inv(s) && t in s.status
    ensures Do(s, Wake(t)) != s <==> s.status[t] == BLOCKED
    ensures s.status[t] == BLOCKED ==> Do(s, Wake(t)) == s.(queue := s.queue + [t], status := s.status[t := READY])
  {
    if s.status[t] == BLOCKED { assert t !in s.queue && Do(s, Wake(t)).status[t] == READY; }
  }

  /** A new task goes to the end of the queue, ready, unless it is queued. */
  lemma EnqueueIff<T>(s: Sched<T>, t: T)
    requires Inv(s) && t in s.status
    ensures Do(s, Enqueue(t)) == if t in s.queue then s else s.(queue := s.queue + [t], status := s.status[t := READY])
    ensures Do(s, Enqueue(t)).queue[|Do(s, Enqueue(t)).queue| - 1] == t || t in s.queue
  {}

  /** A blocked task is in no queue; the others keep their places and states. */
  lemma BlockedIsOut<T>(s: Sched<T>, t: T)
    requires Inv(s) && t in s.status
    ensures var e := Do(s, Block(t));
            && e.status[t] == BLOCKED && t !in e.queue && e.current == s.current
            && (forall u :: u in s.queue && u != t ==> u in e.queue)
            && (forall u :: u in s.status && u != t ==> e.status[u] == s.status[u])
  {
    WithoutMembers(s.queue, t);
    forall u | u in s.queue && u != t ensures u in Without(s.queue, t) { WithoutKeeps(s.queue, t, u); }
  }

  lemma {:induction false} WithoutKeeps<T>(q: seq<T>, t: T, u: T)
    requires u in q && u != t
    ensures u in Without(q, t)
  {
    if q[0] == t { assert q == [q[0]] + q[1..]; } else if q[0] != u {
      assert q == [q[0]] + q[1..];
      WithoutKeeps(q[1..], t, u);
    }
  }

  /** The exit call ends the current task exactly if it is an app: it is terminated, in no queue, and no task is
      current. */
  lemma ExitIff<T>(s: Sched<T>)
    requires Inv(s)
    ensures Do(s, Exit) != s <==> s.current.Some? && s.current.value in s.apps
    ensures Do(s, Exit) != s ==>
              var e, t := Do(s, Exit), s.current.value;
              && e.current == None && e.status[t] == TERMINATED && t !in e.queue
              && (forall u :: u in s.queue && u != t ==> u in e.queue)
              && (forall u :: u in s.status && u != t ==> e.status[u] == s.status[u])
  {
    if Exits(s) {
      var t := s.current.value;
      WithoutMembers(s.queue, t);
      forall u | u in s.queue && u != t ensures u in Without(s.queue, t) { WithoutKeeps(s.queue, t, u); }
    }
  }

  /** Once the current task is at the head, no amount of scheduling and enqueueing changes it. */
  lemma {:induction false} StallLasts<T>(s: Sched<T>, steps: seq<Step<T>>)
    requires Stalled(s) && forall i :: 0 <= i < |steps| ==>
               steps[i].Schedule? || steps[i].Enqueue? || steps[i].Wake? || steps[i].SetEnabled?
    ensures Stalled(Run(s, steps)) && Run(s, steps).current == s.current && Switches(s, steps) == 0
    decreases |steps|
  {
    if steps != [] {
      assert steps[0].Schedule? || steps[0].Enqueue? || steps[0].Wake? || steps[0].SetEnabled?;
      StallLasts(Do(s, steps[0]), steps[1..]);
    }
  }

  /** The way into it: with nothing else queued, the running task blocks and is woken. */
  lemma BlockWakeStalls<T>(s: Sched<T>)
    requires Inv(s) && Running(s) && s.queue == []
    ensures Stalled(Run(s, [Block(s.current.value), Wake(s.current.value)]))
  {
    var t := s.current.value;
    var m := Do(s, Block(t));
    assert m.queue == [] && m.status[t] == BLOCKED;
    assert [Block(t), Wake(t)][1..] == [Wake(t)] && [Wake(t)][1..] == [];
    assert Run(s, [Block(t), Wake(t)]) == Run(m, [Wake(t)]) == Run(Do(m, Wake(t)), []);
  }
}

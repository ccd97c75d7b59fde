/** The task manager's intrusive ready queue and the scheduler on top of it. */
module Tasks {
  import opened Prelude
  import opened RoundRobin

  class Task {
    var state: Status
    var next: Task?
    var prev: Task?
    const isApp: bool

    constructor (isApp: bool)
      ensures state == READY && next == null && prev == null && this.isApp == isApp
    {
      state, next, prev := READY, null, null;
      this.isApp := isApp;
    }
  }

  function Maybe(t: Task?): Option<Task> { if t == null then None else Some(t) }

  function Reverse(q: seq<Task>): (r: seq<Task>)
    ensures |r| == |q| && forall i :: 0 <= i < |q| ==> r[i] == q[|q| - 1 - i]
  {
    seq(|q|, i requires 0 <= i < |q| => q[|q| - 1 - i])
  }

  /** The neighbours of position i in a queue. */
  function NextOf(q: seq<Task>, i: nat): Task? { if i + 1 < |q| then q[i + 1] else null }
  function PrevOf(q: seq<Task>, i: nat): Task? { if 0 < i <= |q| then q[i - 1] else null }

  /** The links of the task at position i are its neighbours. */
  ghost predicate LinkAt(q: seq<Task>, i: nat)
    requires i < |q|
    reads q[i]
  {
    q[i].next == NextOf(q, i) && q[i].prev == PrevOf(q, i)
  }

  /** The links of the tasks spell the queue in both directions; tasks outside it have no links. */
  ghost predicate Spells(q: seq<Task>, tasks: set<Task>)
    reads tasks
  {
    && Distinct(q) && (forall i: nat :: i < |q| ==> q[i] in tasks)
    && (forall i: nat :: i < |q| ==> LinkAt(q, i))
    && (forall t :: t in tasks && t !in q ==> t.next == null && t.prev == null)
  }

  /** The links of all tasks at one moment. */
  datatype Links = Links(next: map<Task, Task?>, prev: map<Task, Task?>)

  ghost function LinksOf(tasks: set<Task>): Links
    reads tasks
  {
    Links(map t | t in tasks :: t.next, map t | t in tasks :: t.prev)
  }

  ghost predicate WasLinked(l: Links, q: seq<Task>, i: nat)
    requires i < |q|
  {
    q[i] in l.next && q[i] in l.prev && l.next[q[i]] == NextOf(q, i) && l.prev[q[i]] == PrevOf(q, i)
  }

  /** The links l spelled the queue. */
  ghost predicate Spelled(l: Links, q: seq<Task>, tasks: set<Task>) {
    && l.next.Keys == tasks && l.prev.Keys == tasks && Distinct(q)
    && (forall i: nat :: i < |q| ==> WasLinked(l, q, i))
    && (forall t :: t in tasks && t !in q ==> l.next[t] == null && l.prev[t] == null)
  }

  lemma Snapshot(q: seq<Task>, tasks: set<Task>)
    requires Spells(q, tasks)
    ensures Spelled(LinksOf(tasks), q, tasks)
  {
    forall i: nat | i < |q| ensures WasLinked(LinksOf(tasks), q, i) { assert LinkAt(q, i); }
  }

  /** Appending: the new task is linked behind the last one. */
  lemma AppendSpells(l: Links, q: seq<Task>, tasks: set<Task>, t: Task, last: Task?)
    requires Spelled(l, q, tasks) && t in tasks && t !in q && last == PrevOf(q, |q|)
    requires forall u :: u in tasks ==> u.next == if u == t then null else if u == last then t else l.next[u]
    requires forall u :: u in tasks ==> u.prev == if u == t then last else l.prev[u]
    ensures Spells(q + [t], tasks)
  {
    var q' := q + [t];
    forall i: nat | i < |q'| ensures q'[i] in tasks && LinkAt(q', i) {
      if i < |q| {
        assert WasLinked(l, q, i);
        assert i + 1 < |q| ==> q[i] != last;
      }
    }
  }

  /** Removing from any position: the neighbours are linked to each other. */
  lemma RemoveSpells(l: Links, q: seq<Task>, tasks: set<Task>, i: nat)
    requires Spelled(l, q, tasks) && i < |q|
    requires forall u :: u in tasks ==>
               u.next == if u == q[i] then null else if u == PrevOf(q, i) then NextOf(q, i) else l.next[u]
    requires forall u :: u in tasks ==>
               u.prev == if u == q[i] then null else if u == NextOf(q, i) then PrevOf(q, i) else l.prev[u]
    ensures Spells(q[..i] + q[i + 1..], tasks)
  {
    var q' := q[..i] + q[i + 1..];
    assert q == q[..i] + [q[i]] + q[i + 1..];
    forall j: nat | j < |q'| ensures q'[j] in tasks && LinkAt(q', j) {
      var k := if j < i then j else j + 1;
      assert WasLinked(l, q, k);
      RemoveNeighbours(q, i, j);
    }
  }

  lemma StillSpells(l: Links, q: seq<Task>, tasks: set<Task>)
    requires Spelled(l, q, tasks) && forall u :: u in tasks ==> u.next == l.next[u] && u.prev == l.prev[u]
    ensures Spells(q, tasks)
  {
    forall i: nat | i < |q| ensures q[i] in tasks && LinkAt(q, i) { assert WasLinked(l, q, i); }
  }

  /** The neighbours in the shorter queue. */
  lemma RemoveNeighbours(q: seq<Task>, i: nat, j: nat)
    requires Distinct(q) && i < |q| && j < |q| - 1
    ensures var q', k := q[..i] + q[i + 1..], if j < i then j else j + 1;
            && q'[j] == q[k] && q[k] != q[i]
            && NextOf(q', j) == (if Maybe(PrevOf(q, i)) == Some(q[k]) then NextOf(q, i) else NextOf(q, k))
            && PrevOf(q', j) == (if Maybe(NextOf(q, i)) == Some(q[k]) then PrevOf(q, i) else PrevOf(q, k))
  {}

  class TaskManager {
    var current: Task?
    var head: Task?
    var tail: Task?
    ghost var queue: seq<Task>
    ghost var tasks: set<Task>

    constructor ()
      ensures Valid() && queue == [] && tasks == {} && current == null
    {
      current, head, tail, queue, tasks := null, null, null, [], {};
    }

    ghost predicate Valid()
      reads this, tasks
    {
      && Spells(queue, tasks) && (current != null ==> current in tasks)
      && head == (if queue == [] then null else queue[0]) && tail == PrevOf(queue, |queue|)
    }

    /** The object is in state s of the machine. */
    ghost predicate Is(s: Sched<Task>)
      reads this, tasks
    {
      && Valid() && queue == s.queue && Maybe(current) == s.current && s.status.Keys == tasks
      && (forall t :: t in tasks ==> t.state == s.status[t]) && (forall t :: t in tasks ==> (t in s.apps <==> t.isApp))
    }

    /** It always is in exactly one, up to the scheduler's switch. */
    ghost function View(enabled: bool): (s: Sched<Task>)
      requires Valid()
      reads this, tasks
      ensures Is(s) && s.enabled == enabled
    {
      Sched(queue, Maybe(current), map t | t in tasks :: t.state, (set t | t in tasks && t.isApp), enabled)
    }

    /** The membership test of `AddToReadyQueue` is exact. */
    lemma GuardIff(task: Task)
      requires Valid() && task in tasks
      ensures task in queue <==> task.next != null || task.prev != null || task == head
    {
      if task in queue {
        var i: nat :| i < |queue| && queue[i] == task;
        assert LinkAt(queue, i);
      }
    }

    /** A new task, not yet queued. */
    method Register(task: Task)
      requires Valid() && task !in tasks && task.next == null && task.prev == null
      modifies this`tasks
      ensures Valid() && tasks == old(tasks) + {task} && queue == old(queue) && current == old(current)
    {
      tasks := tasks + {task};
      assert forall i: nat :: i < |queue| ==> old(LinkAt(queue, i));
    }

    method SetCurrentTask(task: Task?)
      requires Valid() && (task != null ==> task in tasks)
      modifies this`current
      ensures Valid() && current == task
    {
      current := task;
    }

    method GetNextTask() returns (next: Task?)
      requires Valid()
      ensures next == if queue == [] then null else queue[0]
    {
      next := head;
    }

    /** Appends the task to the queue unless it is in it. */
    method AddToReadyQueue(task: Task?)
      requires Valid() && (task != null ==> task in tasks)
      modifies this`head, this`tail, this`queue, tasks
      ensures Valid()
      ensures queue == if task == null || task in old(queue) then old(queue) else old(queue) + [task]
      ensures forall t :: t in tasks ==> t.state == if t == task && t !in old(queue) then READY else old(t.state)
    {
      hide Spells;
      if task == null {
        return;
      }
      GuardIff(task);
      if task.next != null || task.prev != null || task == head {
        return;
      }
      AppendTask(task);
    }

    method AppendTask(task: Task)
      requires Valid() && task in tasks && task !in queue
      modifies this`head, this`tail, this`queue, tasks
      ensures Valid() && queue == old(queue) + [task]
      ensures task.state == READY && forall t :: t in tasks && t != task ==> t.state == old(t.state)
    {
      hide Spells, Spelled;
      ghost var l, last := LinksOf(tasks), tail;
      Snapshot(queue, tasks);
      TailInTasks(task);
      LinkLast(task);
      AppendSpells(l, queue, tasks, task, last);
      queue := queue + [task];
    }

    /** The writes of `AddToReadyQueue`. */
    method LinkLast(task: Task)
      requires task in tasks && tail != task && (tail != null ==> tail in tasks)
      modifies this`head, this`tail, tasks
      ensures tail == task && head == if old(tail) == null then task else old(head)
      ensures forall t :: t in tasks ==>
                t.next == if t == task then null else if t == old(tail) then task else old(t.next)
      ensures forall t :: t in tasks ==> t.prev == if t == task then old(tail) else old(t.prev)
      ensures task.state == READY && forall t :: t in tasks && t != task ==> t.state == old(t.state)
    {
      task.state := READY;
      task.next := null;
      task.prev := tail;
      if tail != null {
        tail.next := task;
      } else {
        head := task;
      }
      tail := task;
    }

    lemma TailInTasks(task: Task)
      requires Valid() && task !in queue
      ensures tail != task && (tail != null ==> tail in tasks)
    {}

    lemma NeighboursInTasks(task: Task, i: nat)
      requires Valid() && task in tasks && (task in queue ==> i < |queue| && queue[i] == task)
      ensures (task.next != null ==> task.next in tasks) && (task.prev != null ==> task.prev in tasks)
      ensures task.next != task && task.prev != task
      ensures task in queue ==> task.next == NextOf(queue, i) && task.prev == PrevOf(queue, i)
      ensures task !in queue ==> task.next == null && task.prev == null && task != head && task != tail
    {
      if task in queue { assert LinkAt(queue, i); }
    }

    /** Takes the task out of the queue, wherever it is; a task outside the queue changes nothing. */
    method RemoveFromReadyQueue(task: Task?)
      requires Valid() && (task != null ==> task in tasks)
      modifies this`head, this`tail, this`queue, tasks
      ensures Valid() && queue == if task == null then old(queue) else Without<Task>(old(queue), task)
      ensures forall t :: t in tasks ==> t.state == old(t.state)
    {
      hide Spells, Without, Spelled;
      if task == null {
        return;
      }
      ghost var l, i := LinksOf(tasks), Index(queue, task);
      Snapshot(queue, tasks);
      NeighboursInTasks(task, i);
      Detach(task);
      if task in queue {
        WithoutAt(queue, i);
        RemoveSpells(l, queue, tasks, i);
        queue := queue[..i] + queue[i + 1..];
      } else {
        WithoutAbsent<Task>(queue, task);
        StillSpells(l, queue, tasks);
      }
    }

    /** The writes of `RemoveFromReadyQueue`. */
    method Detach(task: Task)
      requires task in tasks && (task.next != null ==> task.next in tasks) && (task.prev != null ==> task.prev in tasks)
      requires task.next != task && task.prev != task
      modifies this`head, this`tail, tasks
      ensures head == if old(head) == task then old(task.next) else old(head)
      ensures tail == if old(tail) == task then old(task.prev) else old(tail)
      ensures forall t :: t in tasks ==>
                t.next == if t == task then null else if t == old(task.prev) then old(task.next) else old(t.next)
      ensures forall t :: t in tasks ==>
                t.prev == if t == task then null else if t == old(task.next) then old(task.prev) else old(t.prev)
      ensures forall t :: t in tasks ==> t.state == old(t.state)
    {
      if task == head {
        head := task.next;
      }
      if task == tail {
        tail := task.prev;
      }
      if task.prev != null {
        task.prev.next := task.next;
      }
      if task.next != null {
        task.next.prev := task.prev;
      }
      task.next := null;
      task.prev := null;
    }

    /** Following `next` from the head gives the queue. */
    method Forward() returns (q: seq<Task>)
      requires Valid()
      ensures q == queue
    {
      q := [];
      var t := head;
      while t != null
        invariant |q| <= |queue| && q == queue[..|q|] && t == if |q| < |queue| then queue[|q|] else null
        decreases |queue| - |q|
      {
        assert LinkAt(queue, |q|);
        q := q + [t];
        t := t.next;
      }
    }

    /** Following `prev` from the tail gives its mirror image. */
    method Backward() returns (q: seq<Task>)
      requires Valid()
      ensures q == Reverse(queue)
    {
      q := [];
      var t := tail;
      while t != null
        invariant |q| <= |queue| && q == Reverse(queue)[..|q|] && t == PrevOf(queue, |queue| - |q|)
        decreases |queue| - |q|
      {
        assert LinkAt(queue, |queue| - |q| - 1);
        q := q + [t];
        t := t.prev;
      }
    }

    /** Takes the task out of the queue and blocks it; the current task stays current until the next switch. */
    method BlockTask(task: Task?, ghost s: Sched<Task>)
      requires Is(s) && (task != null ==> task in tasks)
      modifies this`head, this`tail, this`queue, tasks
      ensures Is(if task == null then s else Do(s, Block(task as Task)))
    {
      hide Spells, Without, Distinct, TaskManager.Valid;
      if task == null {
        return;
      }
      RemoveFromReadyQueue(task);
      SetState(task, BLOCKED);
    }

    method SetState(task: Task, state: Status)
      requires Valid() && task in tasks
      modifies task`state
      ensures Valid() && task.state == state
    {
      Snapshot(queue, tasks);
      ghost var l := LinksOf(tasks);
      task.state := state;
      StillSpells(l, queue, tasks);
    }

    /** Queues a blocked task. */
    method WakeTask(task: Task?, ghost s: Sched<Task>)
      requires Is(s) && (task != null ==> task in tasks)
      modifies this`head, this`tail, this`queue, tasks
      ensures Is(if task == null then s else Do(s, Wake(task as Task)))
    {
      if task == null {
        return;
      }
      if task.state == BLOCKED {
        AddToReadyQueue(task);
      }
    }

    /** The task part of the exit call. */
    method ExitCurrent(ghost s: Sched<Task>)
      requires Is(s)
      modifies this, tasks
      ensures tasks == old(tasks) && Is(Do(s, Exit))
    {
      hide Spells, Without, Distinct;
      if current != null && current.isApp {
        RemoveFromReadyQueue(current);
        SetState(current, TERMINATED);
        SetCurrentTask(null);
      }
    }
  }

  /** The position of a task in a queue it is in. */
  ghost function Index(q: seq<Task>, t: Task): (i: nat)
    ensures t in q ==> i < |q| && q[i] == t
  {
    if t in q then var i: nat :| i < |q| && q[i] == t; i else 0
  }

  class Scheduler {
    const tm: TaskManager
    var enabled: bool
    var count: nat

    constructor (tm: TaskManager)
      ensures this.tm == tm && !enabled && count == 0
    {
      this.tm := tm;
      enabled, count := false, 0;
    }

    /** One scheduling decision, from the timer or from a yield. */
    method Schedule(voluntary: bool, ghost s: Sched<Task>)
      requires tm.Is(s) && Inv(s) && s.enabled == enabled && count < 0x1_0000_0000
      modifies this`count, tm, tm.tasks
      ensures tm.tasks == old(tm.tasks) && tm.Is(Do(s, RoundRobin.Schedule(voluntary)))
      ensures count == if Effective(s, voluntary) then (old(count) + 1) % 0x1_0000_0000 else old(count)
    {
      hide Spells, Without, Distinct, TaskManager.Valid;
      if !enabled {
        return;
      }
      var current := tm.current;
      var next := tm.GetNextTask();
      if next == null {
        return;
      }
      if current == next {
        return;
      }
      if !voluntary && current != null && current.isApp && current.state == RUNNING {
        return;
      }
      SwitchQueue(s);
      ghost var m := s;
      if current != null && current.state == RUNNING {
        Requeue(current, s);
        m := s.(queue := s.queue + [current], status := s.status[current := READY]);
      }
      Dispatch(next, m);
      count := (count + 1) % 0x1_0000_0000;
    }

    /** The running task goes to the end of the queue. */
    method Requeue(current: Task, ghost s: Sched<Task>)
      requires tm.Is(s) && current in tm.tasks && current !in s.queue && Without(s.queue, current) == s.queue
      modifies tm`head, tm`tail, tm`queue, tm.tasks
      ensures tm.Is(s.(queue := s.queue + [current], status := s.status[current := READY]))
    {
      hide Spells, Without, Distinct, TaskManager.Valid;
      tm.RemoveFromReadyQueue(current);
      tm.SetState(current, READY);
      tm.AddToReadyQueue(current);
    }

    /** The next task leaves the queue and runs. */
    method Dispatch(next: Task, ghost s: Sched<Task>)
      requires tm.Is(s) && next in tm.tasks
      modifies tm`head, tm`tail, tm`queue, tm`current, tm.tasks
      ensures tm.Is(s.(queue := Without(s.queue, next), current := Some(next), status := s.status[next := RUNNING]))
    {
      hide Spells, Without, Distinct, TaskManager.Valid;
      tm.RemoveFromReadyQueue(next);
      tm.SetState(next, RUNNING);
      tm.SetCurrentTask(next);
    }
  }
}

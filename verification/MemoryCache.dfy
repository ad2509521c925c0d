/** The attention-cache allocator of petals/server/memory_cache.py as a state machine: any number of
    tasks allocate and free, in any interleaving of their atomic steps, beside one runtime that reads
    the pipe. */
module MemoryCache {
  import opened Options

  type Handle = nat

  /** Where a task stands. Enqueued: counted as waiting. Queued: it waits for the memory lock. Checking and Waiting:
      it holds the lock. Passed: the check succeeded and the lock is released. Dequeued: no longer counted as
      waiting. Live: allocated. Freed and Failed are final. */
  datatype Phase = Enqueued | Queued | Checking | Waiting | Passed | Dequeued | Live | Freed | Failed

  datatype Task = Task(size: nat, tensors: nat, noWait: bool, phase: Phase, handles: seq<Handle>)

  /** Pipe messages: create tensors for the handles, or free them. */
  datatype Message = Create(handles: seq<Handle>) | Free(handles: seq<Handle>)

  datatype State = State(
    maxSize: nat,
    current: int,
    enqueued: int,
    counter: nat,
    tasks: seq<Task>,
    pipe: seq<Message>,
    table: set<Handle>)

  function Initial(maxSize: nat): State { State(maxSize, 0, 0, 0, [], [], {}) }

  /** One atomic action. Start begins a new allocation; the others concern task t, or the runtime. */
  datatype Action =
    | Start(size: nat, tensors: nat, noWait: bool)
    | Admit(t: nat)        // with timeout 0, fail at once if the cache is full, counting the waiting ones
    | Acquire(t: nat)      // take the memory lock
    | Check(t: nat)        // the size test under the lock
    | Recheck(t: nat)      // the loop test of a task that waits for memory
    | GiveUp(t: nat)       // time is out, in front of or under the lock
    | Dequeue(t: nat)      // enqueued_size -= size
    | Commit(t: nat)       // handles, current_size += size, message to the runtime
    | Release(t: nat)      // _free
    | Receive              // the runtime reads one message

  function SetPhase(s: State, t: nat, phase: Phase): State
    requires t < |s.tasks|
  {
    s.(tasks := s.tasks[t := s.tasks[t].(phase := phase)])
  }

  /** A failing task leaves the queue count. */
  function Fail(s: State, t: nat): State
    requires t < |s.tasks|
  {
    SetPhase(s, t, Failed).(enqueued := s.enqueued - s.tasks[t].size)
  }

  predicate LockFree(s: State) {
    forall i :: 0 <= i < |s.tasks| ==> s.tasks[i].phase != Checking && s.tasks[i].phase != Waiting
  }

  function Range(from_: nat, n: nat): (r: seq<Handle>)
    ensures |r| == n
  {
    seq(n, i requires 0 <= i < n => from_ + i)
  }

  predicate Enabled(s: State, a: Action) {
    match a
    case Start(_, _, _) => true
    case Receive => s.pipe != []
    case Admit(t) => t < |s.tasks| && s.tasks[t].phase == Enqueued
    case Acquire(t) => t < |s.tasks| && s.tasks[t].phase == Queued && LockFree(s)
    case Check(t) => t < |s.tasks| && s.tasks[t].phase == Checking
    case Recheck(t) => t < |s.tasks| && s.tasks[t].phase == Waiting
    case GiveUp(t) =>
      t < |s.tasks| && !s.tasks[t].noWait && s.tasks[t].phase in {Enqueued, Queued, Waiting}
    case Dequeue(t) => t < |s.tasks| && s.tasks[t].phase == Passed
    case Commit(t) => t < |s.tasks| && s.tasks[t].phase == Dequeued
    case Release(t) => t < |s.tasks| && s.tasks[t].phase == Live
  }

  function Next(s: State, a: Action): State
    requires Enabled(s, a)
  {
    match a
    case Start(size, tensors, noWait) =>
      s.(tasks := s.tasks + [Task(size, tensors, noWait, Enqueued, [])], enqueued := s.enqueued + size)
    case Admit(t) =>
      if s.tasks[t].noWait && s.current + s.enqueued > s.maxSize then Fail(s, t) else SetPhase(s, t, Queued)
    case Acquire(t) => SetPhase(s, t, Checking)
    case Check(t) =>
      if s.current + s.tasks[t].size <= s.maxSize then SetPhase(s, t, Passed)
      else if s.tasks[t].noWait || s.tasks[t].size > s.maxSize then Fail(s, t)
      else SetPhase(s, t, Waiting)
    case Recheck(t) => if s.current + s.tasks[t].size <= s.maxSize then SetPhase(s, t, Passed) else s
    case GiveUp(t) => Fail(s, t)
    case Dequeue(t) => SetPhase(s, t, Dequeued).(enqueued := s.enqueued - s.tasks[t].size)
    case Commit(t) =>
      var task := s.tasks[t];
      var handles := Range(s.counter, task.tensors);
      s.(tasks := s.tasks[t := task.(phase := Live, handles := handles)],
         current := s.current + task.size,
         counter := s.counter + task.tensors,
         pipe := s.pipe + [Create(handles)])
    case Release(t) =>
      SetPhase(s, t, Freed).(pipe := s.pipe + [Free(s.tasks[t].handles)], current := s.current - s.tasks[t].size)
    case Receive => s.(pipe := s.pipe[1..], table := Received(s.table, s.pipe[0]))
  }

  function AsSet(handles: seq<Handle>): set<Handle> { set h | h in handles }

  function Received(table: set<Handle>, m: Message): set<Handle> {
    match m
    case Create(handles) => table + AsSet(handles)
    case Free(handles) => table - AsSet(handles)
  }

  /** The runtime's table after it has read everything that is in the pipe. */
  function Drained(table: set<Handle>, pipe: seq<Message>): set<Handle>
    decreases |pipe|
  {
    if pipe == [] then table else Drained(Received(table, pipe[0]), pipe[1..])
  }

  ghost predicate Run(states: seq<State>, actions: seq<Action>, maxSize: nat) {
    && |states| == |actions| + 1
    && states[0] == Initial(maxSize)
    && forall i :: 0 <= i < |actions| ==> Enabled(states[i], actions[i]) && states[i + 1] == Next(states[i], actions[i])
  }

  // ---- sums over tasks

  predicate Counted(phase: Phase) { phase in {Enqueued, Queued, Checking, Waiting, Passed} }

  /** Between the check and the commit. */
  predicate InGap(phase: Phase) { phase == Passed || phase == Dequeued }

  function Sum(tasks: seq<Task>, p: Phase -> bool): nat {
    if tasks == [] then 0 else (if p(tasks[0].phase) then tasks[0].size else 0) + Sum(tasks[1..], p)
  }

  function Number(tasks: seq<Task>, p: Phase -> bool): nat {
    if tasks == [] then 0 else (if p(tasks[0].phase) then 1 else 0) + Number(tasks[1..], p)
  }

  lemma {:induction false} SumUpdate(tasks: seq<Task>, t: nat, task: Task, p: Phase -> bool)
    requires t < |tasks|
    ensures Sum(tasks[t := task], p) == Sum(tasks, p) - (if p(tasks[t].phase) then tasks[t].size else 0)
                                                      + (if p(task.phase) then task.size else 0)
    ensures Number(tasks[t := task], p) == Number(tasks, p) - (if p(tasks[t].phase) then 1 else 0)
                                                            + (if p(task.phase) then 1 else 0)
  {
    if t == 0 {
      assert tasks[t := task][1..] == tasks[1..];
    } else {
      assert tasks[t := task][1..] == tasks[1..][t - 1 := task];
      SumUpdate(tasks[1..], t - 1, task, p);
    }
  }

  lemma {:induction false} SumAppend(tasks: seq<Task>, task: Task, p: Phase -> bool)
    ensures Sum(tasks + [task], p) == Sum(tasks, p) + if p(task.phase) then task.size else 0
    ensures Number(tasks + [task], p) == Number(tasks, p) + if p(task.phase) then 1 else 0
  {
    if tasks == [] {
      assert tasks + [task] == [task];
    } else {
      assert (tasks + [task])[1..] == tasks[1..] + [task];
      SumAppend(tasks[1..], task, p);
    }
  }

  const COUNTED: Phase -> bool := p => Counted(p)
  const LIVE: Phase -> bool := (p: Phase) => p == Live
  const IN_GAP: Phase -> bool := p => InGap(p)

  // ---- the counters

  /** current_size_bytes is the sum of the live allocations and enqueued_size_bytes that of the waiting
      ones. */
  ghost predicate CountersExact(s: State) {
    s.current == Sum(s.tasks, LIVE) && s.enqueued == Sum(s.tasks, COUNTED)
  }

  function LiveSize(task: Task): nat { if task.phase == Live then task.size else 0 }
  function CountedSize(task: Task): nat { if Counted(task.phase) then task.size else 0 }

  /** Every action but Start and Receive changes one task. */
  predicate ActsOn(a: Action, t: nat) {
    !a.Start? && !a.Receive? && a.t == t
  }

  /** What an action does to the task it acts on, and to the counters. */
  lemma OneTaskChanges(s: State, a: Action, t: nat)
    requires Enabled(s, a) && ActsOn(a, t)
    ensures t < |s.tasks|
    ensures var s' := Next(s, a);
            && |s'.tasks| == |s.tasks| && s'.tasks == s.tasks[t := s'.tasks[t]]
            && s'.tasks[t].size == s.tasks[t].size
            && s'.current - s.current == LiveSize(s'.tasks[t]) - LiveSize(s.tasks[t])
            && s'.enqueued - s.enqueued == CountedSize(s'.tasks[t]) - CountedSize(s.tasks[t])
            && s'.maxSize == s.maxSize
  {
  }

  lemma CountersStayExact(s: State, a: Action)
    requires CountersExact(s) && Enabled(s, a)
    ensures CountersExact(Next(s, a))
  {
    var s' := Next(s, a);
    if a.Start? {
      var task := Task(a.size, a.tensors, a.noWait, Enqueued, []);
      SumAppend(s.tasks, task, LIVE);
      SumAppend(s.tasks, task, COUNTED);
    } else if !a.Receive? {
      OneTaskChanges(s, a, a.t);
      SumUpdate(s.tasks, a.t, s'.tasks[a.t], LIVE);
      SumUpdate(s.tasks, a.t, s'.tasks[a.t], COUNTED);
    }
  }

  // ---- the memory bound

  /** Live allocations plus those on their way from the check to the commit. */
  function Committed(s: State): int { s.current + Sum(s.tasks, IN_GAP) }

  function GapSize(task: Task): nat { if InGap(task.phase) then task.size else 0 }

  ghost predicate SizesAtMost(s: State, m: nat) {
    forall i :: 0 <= i < |s.tasks| ==> s.tasks[i].size <= m
  }

  lemma {:induction false} SumAtMost(tasks: seq<Task>, p: Phase -> bool, m: nat)
    requires forall i :: 0 <= i < |tasks| ==> tasks[i].size <= m
    ensures Sum(tasks, p) <= Number(tasks, p) * m
  {
    if tasks != [] {
      SumAtMost(tasks[1..], p, m);
    }
  }

  /** A task enters the gap only when it fits beside the live allocations; nothing else raises the
      committed size. */
  lemma GapChange(s: State, a: Action, t: nat)
    requires Enabled(s, a) && ActsOn(a, t) && t < |s.tasks|
    ensures var s' := Next(s, a);
            && |s'.tasks| == |s.tasks|
            && if !InGap(s.tasks[t].phase) && InGap(s'.tasks[t].phase)
               then s'.current == s.current && s.current + s.tasks[t].size <= s.maxSize
                    && s'.tasks[t].size == s.tasks[t].size
               else s'.current + GapSize(s'.tasks[t]) <= s.current + GapSize(s.tasks[t])
  {
  }

  lemma GapProduct(n: nat, k: nat, m: nat)
    requires n <= k
    ensures n * m <= k * m
  {
  }

  /** A task that passes the check enters the gap beside at most k - 1 others. */
  lemma StepKeepsBound(s: State, a: Action, k: nat, m: nat)
    requires Enabled(s, a) && SizesAtMost(s, m)
    requires k >= 1 && Number(Next(s, a).tasks, IN_GAP) <= k
    requires Committed(s) <= s.maxSize + (k - 1) * m
    ensures Committed(Next(s, a)) <= s.maxSize + (k - 1) * m
  {
    var s' := Next(s, a);
    if a.Start? {
      SumAppend(s.tasks, Task(a.size, a.tensors, a.noWait, Enqueued, []), IN_GAP);
    } else if !a.Receive? {
      OneTaskChanges(s, a, a.t);
      GapChange(s, a, a.t);
      var task := s'.tasks[a.t];
      SumUpdate(s.tasks, a.t, task, IN_GAP);
      SumAtMost(s.tasks, IN_GAP, m);
      if !InGap(s.tasks[a.t].phase) && InGap(task.phase) {
        GapProduct(Number(s.tasks, IN_GAP), k - 1, m);
      }
    }
  }

  /** At most k tasks are ever between check and commit, and each asks for at most m bytes. */
  ghost predicate GapBounded(states: seq<State>, k: nat, m: nat) {
    forall i :: 0 <= i < |states| ==> Number(states[i].tasks, IN_GAP) <= k && SizesAtMost(states[i], m)
  }

  lemma {:induction false} RunKeepsBound(states: seq<State>, actions: seq<Action>, maxSize: nat, k: nat, m: nat, i: nat)
    requires Run(states, actions, maxSize) && GapBounded(states, k, m) && k >= 1 && i < |states|
    ensures states[i].maxSize == maxSize
    ensures CountersExact(states[i])
    ensures Committed(states[i]) <= maxSize + (k - 1) * m
  {
    if i > 0 {
      RunKeepsBound(states, actions, maxSize, k, m, i - 1);
      assert states[i - 1 + 1] == Next(states[i - 1], actions[i - 1]);
      CountersStayExact(states[i - 1], actions[i - 1]);
      StepKeepsBound(states[i - 1], actions[i - 1], k, m);
    } else {
      assert (k - 1) * m >= 0;
    }
  }

  /** On every interleaving: the two counters are exact, and memory in use never exceeds the maximum by
      more than k - 1 allocations, where k tasks can be between check and commit at a time. With k = 1 it
      never exceeds the maximum. */
  lemma MemoryBound(states: seq<State>, actions: seq<Action>, maxSize: nat, k: nat, m: nat, i: nat)
    requires Run(states, actions, maxSize) && GapBounded(states, k, m) && k >= 1 && i < |states|
    ensures CountersExact(states[i])
    ensures 0 <= states[i].current <= maxSize + (k - 1) * m
    ensures k == 1 ==> states[i].current <= maxSize
  {
    RunKeepsBound(states, actions, maxSize, k, m, i);
  }

  // ---- the bound is reached

  /** Some run with at most k tasks in the gap and sizes of at most m leads to s. */
  ghost predicate Reachable(s: State, maxSize: nat, k: nat, m: nat) {
    exists states: seq<State>, actions: seq<Action> ::
      Run(states, actions, maxSize) && GapBounded(states, k, m) && states[|states| - 1] == s
  }

  lemma InitialReachable(maxSize: nat, k: nat, m: nat)
    ensures Reachable(Initial(maxSize), maxSize, k, m)
  {
    var states, actions: seq<Action> := [Initial(maxSize)], [];
    assert Run(states, actions, maxSize) && GapBounded(states, k, m) && states[|states| - 1] == Initial(maxSize);
  }

  lemma Go(s: State, a: Action, maxSize: nat, k: nat, m: nat)
    requires Reachable(s, maxSize, k, m) && Enabled(s, a)
    requires Number(Next(s, a).tasks, IN_GAP) <= k && SizesAtMost(Next(s, a), m)
    ensures Reachable(Next(s, a), maxSize, k, m)
  {
    var states: seq<State>, actions: seq<Action> :|
      Run(states, actions, maxSize) && GapBounded(states, k, m) && states[|states| - 1] == s;
    var longer, more := states + [Next(s, a)], actions + [a];
    forall i | 0 <= i < |more| ensures Enabled(longer[i], more[i]) && longer[i + 1] == Next(longer[i], more[i]) {
      if i < |actions| {
        assert longer[i] == states[i] && longer[i + 1] == states[i + 1];
      }
    }
    assert Run(longer, more, maxSize) && GapBounded(longer, k, m) && longer[|longer| - 1] == Next(s, a);
  }

  function SizedTask(size: nat, phase: Phase): Task { Task(size, 0, false, phase, []) }

  /** A new task asks for memory, and queues for the lock. */
  lemma OneQueues(s: State, size: nat, maxSize: nat, k: nat, m: nat) returns (s': State)
    requires Reachable(s, maxSize, k, m) && SizesAtMost(s, m) && size <= m && Number(s.tasks, IN_GAP) <= k
    ensures Reachable(s', maxSize, k, m) && s'.current == s.current && s'.maxSize == s.maxSize
    ensures s'.tasks == s.tasks + [SizedTask(size, Queued)] && Number(s'.tasks, IN_GAP) == Number(s.tasks, IN_GAP)
  {
    hide Reachable;
    var t := |s.tasks|;
    SumAppend(s.tasks, SizedTask(size, Enqueued), IN_GAP);
    var s1 := Next(s, Start(size, 0, false));
    Go(s, Start(size, 0, false), maxSize, k, m);
    SumAppend(s.tasks, SizedTask(size, Queued), IN_GAP);
    s' := Next(s1, Admit(t));
    assert s'.tasks == s.tasks + [SizedTask(size, Queued)];
    Go(s1, Admit(t), maxSize, k, m);
  }

  /** It passes the check, which looks at the live allocations only. */
  lemma OnePasses(s: State, size: nat, maxSize: nat, k: nat, m: nat) returns (s': State)
    requires Reachable(s, maxSize, k, m) && LockFree(s) && SizesAtMost(s, m) && size <= m
    requires s.current + size <= s.maxSize && Number(s.tasks, IN_GAP) < k
    ensures Reachable(s', maxSize, k, m) && s'.current == s.current && s'.maxSize == s.maxSize
    ensures s'.tasks == s.tasks + [SizedTask(size, Passed)]
  {
    hide Reachable;
    var t := |s.tasks|;
    var s1 := OneQueues(s, size, maxSize, k, m);
    SumAppend(s.tasks, SizedTask(size, Checking), IN_GAP);
    var s2 := Next(s1, Acquire(t));
    assert s2.tasks == s.tasks + [SizedTask(size, Checking)];
    Go(s1, Acquire(t), maxSize, k, m);
    SumAppend(s.tasks, SizedTask(size, Passed), IN_GAP);
    s' := Next(s2, Check(t));
    assert s'.tasks == s.tasks + [SizedTask(size, Passed)];
    Go(s2, Check(t), maxSize, k, m);
  }

  /** A task that has passed leaves the queue and commits. */
  lemma OneCommits(s: State, t: nat, maxSize: nat, k: nat, m: nat) returns (s': State)
    requires Reachable(s, maxSize, k, m) && SizesAtMost(s, m)
    requires t < |s.tasks| && s.tasks[t] == SizedTask(s.tasks[t].size, Passed)
    requires Number(s.tasks, IN_GAP) <= k
    ensures Reachable(s', maxSize, k, m) && s'.current == s.current + s.tasks[t].size && s'.maxSize == s.maxSize
    ensures s'.tasks == s.tasks[t := SizedTask(s.tasks[t].size, Live)]
    ensures Number(s'.tasks, IN_GAP) == Number(s.tasks, IN_GAP) - 1
  {
    var size := s.tasks[t].size;
    SumUpdate(s.tasks, t, SizedTask(size, Dequeued), IN_GAP);
    var s1 := Next(s, Dequeue(t));
    assert s1.tasks == s.tasks[t := SizedTask(size, Dequeued)];
    Go(s, Dequeue(t), maxSize, k, m);
    SumUpdate(s.tasks, t, SizedTask(size, Live), IN_GAP);
    s' := Next(s1, Commit(t));
    assert Range(s1.counter, 0) == [];
    assert s'.tasks == s.tasks[t := SizedTask(size, Live)];
    Go(s1, Commit(t), maxSize, k, m);
  }

  ghost predicate AllLive(s: State) {
    forall i :: 0 <= i < |s.tasks| ==> s.tasks[i].phase == Live
  }

  lemma {:induction false} NoneInGap(tasks: seq<Task>)
    requires forall i :: 0 <= i < |tasks| ==> tasks[i].phase == Live
    ensures Number(tasks, IN_GAP) == 0
  {
    if tasks != [] {
      NoneInGap(tasks[1..]);
    }
  }

  /** Tasks that take turns fill the cache to any level. */
  lemma {:induction false} Fill(s: State, target: nat, maxSize: nat, k: nat, m: nat) returns (s': State)
    requires Reachable(s, maxSize, k, m) && SizesAtMost(s, m) && AllLive(s) && k >= 1 && m > 0
    requires s.maxSize == maxSize && s.current <= target <= maxSize
    ensures Reachable(s', maxSize, k, m) && SizesAtMost(s', m) && AllLive(s')
    ensures s'.maxSize == maxSize && s'.current == target
    decreases target - s.current
  {
    s' := s;
    if s.current < target {
      var size := if target - s.current < m then target - s.current else m;
      NoneInGap(s.tasks);
      var s1 := OnePasses(s, size, maxSize, k, m);
      SumAppend(s.tasks, SizedTask(size, Passed), IN_GAP);
      var s2 := OneCommits(s1, |s.tasks|, maxSize, k, m);
      s' := Fill(s2, target, maxSize, k, m);
    }
  }

  /** The last n tasks have passed the check with m bytes each, the others are allocated. */
  ghost predicate InLine(s: State, n: nat, m: nat) {
    && n <= |s.tasks| && SizesAtMost(s, m)
    && (forall i :: 0 <= i < |s.tasks| - n ==> s.tasks[i].phase == Live)
    && (forall i :: |s.tasks| - n <= i < |s.tasks| ==> s.tasks[i] == SizedTask(m, Passed))
    && Number(s.tasks, IN_GAP) == n
  }

  /** While nobody commits, any number of tasks passes the check. */
  lemma {:induction false} ManyPass(s: State, n: nat, maxSize: nat, k: nat, m: nat) returns (s': State)
    requires Reachable(s, maxSize, k, m) && InLine(s, 0, m) && n <= k
    requires s.maxSize == maxSize && s.current + m <= maxSize
    ensures Reachable(s', maxSize, k, m) && InLine(s', n, m) && s'.current == s.current && s'.maxSize == maxSize
    decreases n
  {
    s' := s;
    if n > 0 {
      var s1 := ManyPass(s, n - 1, maxSize, k, m);
      s' := OnePasses(s1, m, maxSize, k, m);
      SumAppend(s1.tasks, SizedTask(m, Passed), IN_GAP);
    }
  }

  lemma OneMore(n: nat, m: nat)
    ensures (n + 1) * m == n * m + m
  {
  }

  /** All of them commit, and nothing stops them. */
  lemma {:induction false} ManyCommit(s: State, n: nat, maxSize: nat, k: nat, m: nat) returns (s': State)
    requires Reachable(s, maxSize, k, m) && InLine(s, n, m) && n <= k
    ensures Reachable(s', maxSize, k, m) && s'.current == s.current + n * m
    decreases n
  {
    s' := s;
    if n > 0 {
      var s1 := OneCommits(s, |s.tasks| - n, maxSize, k, m);
      assert InLine(s1, n - 1, m);
      s' := ManyCommit(s1, n - 1, maxSize, k, m);
      OneMore(n - 1, m);
    }
  }

  /** The bound is reached: for every number k of tasks in the gap and every task size that fits into the
      cache, some run uses exactly k - 1 allocations more than the maximum. */
  lemma BoundIsReached(maxSize: nat, k: nat, m: nat) returns (states: seq<State>, actions: seq<Action>)
    requires k >= 1 && 0 < m <= maxSize
    ensures Run(states, actions, maxSize) && GapBounded(states, k, m)
    ensures |states| > 0 && states[|states| - 1].current == maxSize + (k - 1) * m
  {
    InitialReachable(maxSize, k, m);
    var full := Fill(Initial(maxSize), maxSize - m, maxSize, k, m);
    NoneInGap(full.tasks);
    var passed := ManyPass(full, k, maxSize, k, m);
    var over := ManyCommit(passed, k, maxSize, k, m);
    OneMore(k - 1, m);
    states, actions :| Run(states, actions, maxSize) && GapBounded(states, k, m) && states[|states| - 1] == over;
  }

  // ---- handles and the runtime's table

  function LiveHandles(tasks: seq<Task>): set<Handle> {
    set i, h | 0 <= i < |tasks| && tasks[i].phase == Live && h in tasks[i].handles :: h
  }

  /** Handles that were ever given out are below the counter and belong to one task only, for good. */
  ghost predicate HandlesUnique(s: State) {
    && (forall i, h :: 0 <= i < |s.tasks| && h in s.tasks[i].handles ==> h < s.counter)
    && (forall i, j, h :: 0 <= i < j < |s.tasks| && h in s.tasks[i].handles ==> h !in s.tasks[j].handles)
    && (forall i :: 0 <= i < |s.tasks| && s.tasks[i].phase != Live && s.tasks[i].phase != Freed ==>
          s.tasks[i].handles == [])
  }

  /** Once the runtime has read the pipe, its table is exactly the live handles. */
  ghost predicate TableExact(s: State) {
    Drained(s.table, s.pipe) == LiveHandles(s.tasks)
  }

  lemma {:induction false} DrainedAppend(table: set<Handle>, pipe: seq<Message>, m: Message)
    ensures Drained(table, pipe + [m]) == Received(Drained(table, pipe), m)
    decreases |pipe|
  {
    if pipe == [] {
      assert pipe + [m] == [m];
    } else {
      assert (pipe + [m])[1..] == pipe[1..] + [m];
      DrainedAppend(Received(table, pipe[0]), pipe[1..], m);
    }
  }

  /** Phase changes other than commit and release touch no handles. */
  lemma QuietStep(s: State, a: Action)
    requires Enabled(s, a) && HandlesUnique(s) && TableExact(s)
    requires !a.Commit? && !a.Release? && !a.Receive?
    ensures HandlesUnique(Next(s, a)) && TableExact(Next(s, a))
  {
    var s' := Next(s, a);
    assert s'.counter == s.counter && s'.pipe == s.pipe && s'.table == s.table;
    assert |s.tasks| <= |s'.tasks|;
    assert forall i :: 0 <= i < |s.tasks| ==>
      && s'.tasks[i].handles == s.tasks[i].handles
      && (s'.tasks[i].phase == Live <==> s.tasks[i].phase == Live)
      && (s'.tasks[i].phase == Freed <==> s.tasks[i].phase == Freed);
    assert forall i :: |s.tasks| <= i < |s'.tasks| ==> s'.tasks[i].handles == [];
    assert LiveHandles(s'.tasks) == LiveHandles(s.tasks);
  }

  lemma CommitStep(s: State, t: nat)
    requires Enabled(s, Commit(t)) && HandlesUnique(s) && TableExact(s)
    ensures HandlesUnique(Next(s, Commit(t))) && TableExact(Next(s, Commit(t)))
  {
    var s' := Next(s, Commit(t));
    var handles := Range(s.counter, s.tasks[t].tensors);
    assert forall h :: h in handles ==> s.counter <= h < s'.counter;
    DrainedAppend(s.table, s.pipe, Create(handles));
    assert LiveHandles(s'.tasks) == LiveHandles(s.tasks) + AsSet(handles) by {
      forall h | h in AsSet(handles) ensures h in LiveHandles(s'.tasks) {
        assert s'.tasks[t].phase == Live && h in s'.tasks[t].handles;
      }
      forall h | h in LiveHandles(s.tasks) ensures h in LiveHandles(s'.tasks) {
        var i :| 0 <= i < |s.tasks| && s.tasks[i].phase == Live && h in s.tasks[i].handles;
        assert s'.tasks[i] == s.tasks[i];
      }
    }
  }

  lemma ReleaseStep(s: State, t: nat)
    requires Enabled(s, Release(t)) && HandlesUnique(s) && TableExact(s)
    ensures HandlesUnique(Next(s, Release(t))) && TableExact(Next(s, Release(t)))
  {
    var s' := Next(s, Release(t));
    var handles := s.tasks[t].handles;
    DrainedAppend(s.table, s.pipe, Free(handles));
    assert LiveHandles(s'.tasks) == LiveHandles(s.tasks) - AsSet(handles) by {
      forall h | h in LiveHandles(s'.tasks) ensures h in LiveHandles(s.tasks) && h !in AsSet(handles) {
        var i :| 0 <= i < |s'.tasks| && s'.tasks[i].phase == Live && h in s'.tasks[i].handles;
        assert i != t && s.tasks[i] == s'.tasks[i];
        assert h !in s.tasks[t].handles;
      }
      forall h | h in LiveHandles(s.tasks) && h !in AsSet(handles) ensures h in LiveHandles(s'.tasks) {
        var i :| 0 <= i < |s.tasks| && s.tasks[i].phase == Live && h in s.tasks[i].handles;
        assert i != t && s'.tasks[i] == s.tasks[i];
      }
    }
  }

  /** An allocation has one handle for each tensor it asked for. */
  lemma {:induction false} OneHandlePerTensor(states: seq<State>, actions: seq<Action>, maxSize: nat, i: nat, t: nat)
    requires Run(states, actions, maxSize) && i < |states| && t < |states[i].tasks|
    requires states[i].tasks[t].phase == Live
    ensures |states[i].tasks[t].handles| == states[i].tasks[t].tensors
  {
    var s, a := states[i - 1], actions[i - 1];
    assert states[i - 1 + 1] == Next(s, a);
    if t < |s.tasks| && s.tasks[t].phase == Live {
      OneHandlePerTensor(states, actions, maxSize, i - 1, t);
    }
  }

  /** On every interleaving: no handle is ever given out twice, and once the pipe is empty the runtime's
      table is exactly the set of live handles, so looking up the handles of a live allocation never
      fails and no freed tensor is kept. */
  lemma {:induction false} RuntimeSeesLiveHandles(states: seq<State>, actions: seq<Action>, maxSize: nat, i: nat)
    requires Run(states, actions, maxSize) && i < |states|
    ensures HandlesUnique(states[i]) && TableExact(states[i])
    ensures states[i].pipe == [] ==> states[i].table == LiveHandles(states[i].tasks)
  {
    if i > 0 {
      RuntimeSeesLiveHandles(states, actions, maxSize, i - 1);
      var s, a := states[i - 1], actions[i - 1];
      assert states[i - 1 + 1] == Next(s, a);
      if a.Commit? {
        CommitStep(s, a.t);
      } else if a.Release? {
        ReleaseStep(s, a.t);
      } else if !a.Receive? {
        QuietStep(s, a);
      }
    }
  }

  /** The reading half of use_cache: the pipe is drained message by message, handle by handle. */
  class Runtime {
    var table: set<Handle>

    constructor ()
      ensures table == {}
    {
      table := {};
    }

    method DrainPipe(pipe: seq<Message>)
      modifies this
      ensures table == Drained(old(table), pipe)
    {
      for k := 0 to |pipe|
        invariant Drained(table, pipe[k..]) == Drained(old(table), pipe)
      {
        assert pipe[k..][1..] == pipe[k + 1..];
        var m := pipe[k];
        ghost var before := table;
        for i := 0 to |m.handles|
          invariant table == if m.Create? then before + AsSet(m.handles[..i]) else before - AsSet(m.handles[..i])
        {
          assert m.handles[..i + 1] == m.handles[..i] + [m.handles[i]];
          table := if m.Create? then table + {m.handles[i]} else table - {m.handles[i]};
        }
        assert m.handles[..|m.handles|] == m.handles;
      }
    }
  }
}

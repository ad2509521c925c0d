/** What the allocator owes its callers, beyond the bound: why a request fails, when it is let through, and that
    no request that fits is ever stuck. */
module MemoryCacheProgress {
  import opened Options
  import opened MemoryCache

  // ---- who holds the memory lock

  predicate HoldsLock(phase: Phase) { phase == Checking || phase == Waiting }

  /** At most one task holds the lock; a task that waits for memory asks for no more than there is, and did not
      ask to fail at once. */
  ghost predicate LockSound(s: State) {
    && (forall i, j :: 0 <= i < j < |s.tasks| ==> !(HoldsLock(s.tasks[i].phase) && HoldsLock(s.tasks[j].phase)))
    && (forall i :: 0 <= i < |s.tasks| && s.tasks[i].phase == Waiting ==>
          s.tasks[i].size <= s.maxSize && !s.tasks[i].noWait)
  }

  /** What one action does to the other tasks, and to the request of the task itself. */
  lemma OthersStay(s: State, a: Action)
    requires Enabled(s, a)
    ensures var s' := Next(s, a);
            && s'.maxSize == s.maxSize && |s.tasks| <= |s'.tasks|
            && (forall i :: 0 <= i < |s.tasks| && !ActsOn(a, i) ==> s'.tasks[i] == s.tasks[i])
            && (forall i :: 0 <= i < |s.tasks| ==>
                  s'.tasks[i].size == s.tasks[i].size && s'.tasks[i].noWait == s.tasks[i].noWait)
            && (forall i :: |s.tasks| <= i < |s'.tasks| ==> s'.tasks[i].phase == Enqueued)
  {
  }

  lemma LockStaysSound(s: State, a: Action)
    requires LockSound(s) && Enabled(s, a)
    ensures LockSound(Next(s, a))
  {
    OthersStay(s, a);
    var s' := Next(s, a);
    forall i, j | 0 <= i < j < |s'.tasks| ensures !(HoldsLock(s'.tasks[i].phase) && HoldsLock(s'.tasks[j].phase)) {
      if j < |s.tasks| {
        assert !(HoldsLock(s.tasks[i].phase) && HoldsLock(s.tasks[j].phase));
      }
    }
  }

  /** In every state of every run at most one task holds the memory lock. */
  lemma {:induction false} OneLockHolder(states: seq<State>, actions: seq<Action>, maxSize: nat, i: nat)
    requires Run(states, actions, maxSize) && i < |states|
    ensures LockSound(states[i]) && CountersExact(states[i]) && states[i].maxSize == maxSize
  {
    if i > 0 {
      OneLockHolder(states, actions, maxSize, i - 1);
      assert states[i - 1 + 1] == Next(states[i - 1], actions[i - 1]);
      LockStaysSound(states[i - 1], actions[i - 1]);
      CountersStayExact(states[i - 1], actions[i - 1]);
      OthersStay(states[i - 1], actions[i - 1]);
    }
  }

  // ---- why a request fails, and when it is let through

  /** A request is let through exactly when it fits beside the memory in use; one that does not fit waits, unless
      it never can fit or asked not to wait; and one that waits goes on waiting. */
  lemma LetThroughIffItFits(s: State, t: nat)
    requires t < |s.tasks|
    ensures s.tasks[t].phase == Checking ==>
              var task := s.tasks[t];
              && Enabled(s, Check(t))
              && Next(s, Check(t)).tasks[t] == task.(phase :=
                   if s.current + task.size <= s.maxSize then Passed
                   else if !task.noWait && task.size <= s.maxSize then Waiting else Failed)
    ensures s.tasks[t].phase == Waiting ==>
              && Enabled(s, Recheck(t))
              && (if s.current + s.tasks[t].size <= s.maxSize
                  then Next(s, Recheck(t)).tasks[t] == s.tasks[t].(phase := Passed)
                  else Next(s, Recheck(t)) == s)
    ensures s.tasks[t].phase == Enqueued ==>
              && Enabled(s, Admit(t))
              && Next(s, Admit(t)).tasks[t] == s.tasks[t].(phase :=
                   if s.tasks[t].noWait && s.current + s.enqueued > s.maxSize then Failed else Queued)
  {
  }

  /** The reason for which action a makes task t fail in state s: its time is out; or it asked to fail at once and
      the cache is full, at its first test counting the waiting requests; or it asks for more than there is. */
  ghost predicate Reason(s: State, a: Action, t: nat) {
    t < |s.tasks| &&
    var task := s.tasks[t];
    || (a == GiveUp(t) && !task.noWait)
    || (a == Admit(t) && task.noWait && s.current + s.enqueued > s.maxSize)
    || (a == Check(t) && s.current + task.size > s.maxSize && (task.noWait || task.size > s.maxSize))
  }

  /** A request that fails has a reason. */
  lemma {:induction false} FailedHasReason(states: seq<State>, actions: seq<Action>, maxSize: nat, i: nat, t: nat)
    returns (j: nat)
    requires Run(states, actions, maxSize) && i < |states|
    requires t < |states[i].tasks| && states[i].tasks[t].phase == Failed
    ensures j < i && Reason(states[j], actions[j], t)
    ensures states[j].tasks[t].size == states[i].tasks[t].size && states[j].tasks[t].noWait == states[i].tasks[t].noWait
  {
    hide Next, Enabled, Reason;
    var s, a := states[i - 1], actions[i - 1];
    assert states[i - 1 + 1] == Next(s, a);
    OthersStay(s, a);
    if t < |s.tasks| && s.tasks[t].phase == Failed {
      j := FailedHasReason(states, actions, maxSize, i - 1, t);
    } else {
      j := i - 1;
      FailsWithReason(s, a, t);
    }
  }

  /** A request that may wait and fits into the cache fails only because its own time is out. */
  lemma OnlyTimeFails(states: seq<State>, actions: seq<Action>, maxSize: nat, i: nat, t: nat) returns (j: nat)
    requires Run(states, actions, maxSize) && i < |states|
    requires t < |states[i].tasks| && states[i].tasks[t].phase == Failed
    requires !states[i].tasks[t].noWait && states[i].tasks[t].size <= maxSize
    ensures j < i && actions[j] == GiveUp(t)
  {
    j := FailedHasReason(states, actions, maxSize, i, t);
    OneLockHolder(states, actions, maxSize, j);
  }

  predicate HasPassed(phase: Phase) { phase == Passed || phase == Dequeued || phase == Live || phase == Freed }

  lemma PassesIfItFits(s: State, a: Action, t: nat)
    requires Enabled(s, a) && t < |Next(s, a).tasks| && HasPassed(Next(s, a).tasks[t].phase)
    requires t < |s.tasks| ==> !HasPassed(s.tasks[t].phase)
    ensures t < |s.tasks| && (a == Check(t) || a == Recheck(t)) && s.current + s.tasks[t].size <= s.maxSize
  {
  }

  /** A request that was let through fitted beside the memory in use at that moment; and one that asked not to
      wait had found the cache not full, counting the waiting requests. */
  lemma {:induction false} PassedHasFitted(states: seq<State>, actions: seq<Action>, maxSize: nat, i: nat, t: nat)
    returns (j: nat)
    requires Run(states, actions, maxSize) && i < |states|
    requires t < |states[i].tasks| && HasPassed(states[i].tasks[t].phase)
    ensures j < i && (actions[j] == Check(t) || actions[j] == Recheck(t))
    ensures states[j].current + states[i].tasks[t].size <= maxSize
  {
    hide Next, Enabled, LockSound, CountersExact;
    var s, a := states[i - 1], actions[i - 1];
    assert states[i - 1 + 1] == Next(s, a);
    OthersStay(s, a);
    OneLockHolder(states, actions, maxSize, i - 1);
    if t < |s.tasks| && HasPassed(s.tasks[t].phase) {
      j := PassedHasFitted(states, actions, maxSize, i - 1, t);
    } else {
      j := i - 1;
      PassesIfItFits(s, a, t);
    }
  }

  lemma AdmittedIfNotFull(s: State, a: Action, t: nat)
    requires Enabled(s, a) && t < |Next(s, a).tasks| && Next(s, a).tasks[t].noWait
    requires Next(s, a).tasks[t].phase != Enqueued && Next(s, a).tasks[t].phase != Failed
    requires t < |s.tasks| ==> s.tasks[t].phase == Enqueued || s.tasks[t].phase == Failed
    ensures t < |s.tasks| && a == Admit(t) && s.current + s.enqueued <= s.maxSize
  {
  }

  lemma FailsWithReason(s: State, a: Action, t: nat)
    requires Enabled(s, a) && t < |Next(s, a).tasks| && Next(s, a).tasks[t].phase == Failed
    requires t < |s.tasks| ==> s.tasks[t].phase != Failed
    ensures Reason(s, a, t)
  {
  }

  lemma {:induction false} AdmittedAtOnce(states: seq<State>, actions: seq<Action>, maxSize: nat, i: nat, t: nat)
    returns (j: nat)
    requires Run(states, actions, maxSize) && i < |states|
    requires t < |states[i].tasks| && states[i].tasks[t].noWait
    requires states[i].tasks[t].phase != Enqueued && states[i].tasks[t].phase != Failed
    ensures j < i && actions[j] == Admit(t) && states[j].current + states[j].enqueued <= maxSize
  {
    hide Next, Enabled, LockSound, CountersExact;
    var s, a := states[i - 1], actions[i - 1];
    assert states[i - 1 + 1] == Next(s, a);
    OthersStay(s, a);
    OneLockHolder(states, actions, maxSize, i - 1);
    if t < |s.tasks| && s.tasks[t].phase != Enqueued && s.tasks[t].phase != Failed {
      j := AdmittedAtOnce(states, actions, maxSize, i - 1, t);
    } else {
      j := i - 1;
      AdmittedIfNotFull(s, a, t);
    }
  }

  // ---- no request that fits is ever stuck

  /** These actions lead from s to s'; no new request starts, and nobody's time runs out. */
  ghost predicate Plays(s: State, actions: seq<Action>, s': State)
    decreases |actions|
  {
    if actions == [] then s == s'
    else
      && Enabled(s, actions[0]) && !actions[0].Start? && !actions[0].GiveUp?
      && Plays(Next(s, actions[0]), actions[1..], s')
  }

  ghost predicate Sound(s: State) { LockSound(s) && CountersExact(s) }

  lemma StaysSound(s: State, a: Action)
    requires Sound(s) && Enabled(s, a)
    ensures Sound(Next(s, a))
  {
    LockStaysSound(s, a);
    CountersStayExact(s, a);
  }

  lemma PlayFirst(s: State, a: Action, actions: seq<Action>, s': State)
    requires Enabled(s, a) && !a.Start? && !a.GiveUp? && Plays(Next(s, a), actions, s')
    ensures Plays(s, [a] + actions, s')
  {
    assert ([a] + actions)[1..] == actions;
  }

  lemma {:induction false} PlayBoth(s: State, first: seq<Action>, mid: State, then_: seq<Action>, s': State)
    requires Plays(s, first, mid) && Plays(mid, then_, s')
    ensures Plays(s, first + then_, s')
    decreases |first|
  {
    if first == [] {
      assert first + then_ == then_;
    } else {
      PlayBoth(Next(s, first[0]), first[1..], mid, then_, s');
      assert first + then_ == [first[0]] + (first[1..] + then_);
      PlayFirst(s, first[0], first[1..] + then_, s');
    }
  }

  lemma PlayNext(s: State, first: seq<Action>, mid: State, a: Action)
    requires Plays(s, first, mid) && Enabled(mid, a) && !a.Start? && !a.GiveUp?
    ensures Plays(s, first + [a], Next(mid, a))
  {
    assert Plays(Next(mid, a), [], Next(mid, a));
    PlayFirst(mid, a, [], Next(mid, a));
    assert [a] + [] == [a];
    PlayBoth(s, first, mid, [a], Next(mid, a));
  }

  /** How many actions a task that was let through still needs until it has released its memory. */
  function ToGo(phase: Phase): nat {
    match phase
    case Passed => 3
    case Dequeued => 2
    case Live => 1
    case _ => 0
  }

  function AllToGo(tasks: seq<Task>): nat {
    if tasks == [] then 0 else ToGo(tasks[0].phase) + AllToGo(tasks[1..])
  }

  lemma {:induction false} ToGoUpdate(tasks: seq<Task>, u: nat, task: Task)
    requires u < |tasks|
    ensures AllToGo(tasks[u := task]) == AllToGo(tasks) - ToGo(tasks[u].phase) + ToGo(task.phase)
    ensures ToGo(tasks[u].phase) <= AllToGo(tasks)
  {
    if u == 0 {
      assert tasks[u := task][1..] == tasks[1..];
    } else {
      assert tasks[u := task][1..] == tasks[1..][u - 1 := task];
      ToGoUpdate(tasks[1..], u - 1, task);
    }
  }

  lemma {:induction false} NothingLive(tasks: seq<Task>)
    requires forall i :: 0 <= i < |tasks| ==> ToGo(tasks[i].phase) == 0
    ensures Sum(tasks, LIVE) == 0
  {
    if tasks != [] {
      NothingLive(tasks[1..]);
    }
  }

  /** The next action of a task that was let through. */
  function Onward(s: State, u: nat): Action
    requires u < |s.tasks| && ToGo(s.tasks[u].phase) > 0
  {
    match s.tasks[u].phase
    case Passed => Dequeue(u)
    case Dequeued => Commit(u)
    case _ => Release(u)
  }

  lemma OnwardGoes(s: State, u: nat)
    requires u < |s.tasks| && ToGo(s.tasks[u].phase) > 0
    ensures var a := Onward(s, u);
            && Enabled(s, a) && ActsOn(a, u)
            && |Next(s, a).tasks| == |s.tasks|
            && Next(s, a).tasks == s.tasks[u := Next(s, a).tasks[u]]
            && ToGo(Next(s, a).tasks[u].phase) == ToGo(s.tasks[u].phase) - 1
  {
  }

  /** Everybody who was let through can finish and release; then no memory is in use. */
  lemma {:induction false} ReleaseAll(s: State, t: nat) returns (actions: seq<Action>, s': State)
    requires Sound(s) && t < |s.tasks| && ToGo(s.tasks[t].phase) == 0
    ensures Plays(s, actions, s') && Sound(s')
    ensures s'.maxSize == s.maxSize && s'.current == 0 && |s'.tasks| == |s.tasks| && s'.tasks[t] == s.tasks[t]
    decreases AllToGo(s.tasks)
  {
    if forall i :: 0 <= i < |s.tasks| ==> ToGo(s.tasks[i].phase) == 0 {
      actions, s' := [], s;
      NothingLive(s.tasks);
    } else {
      var u: nat :| u < |s.tasks| && ToGo(s.tasks[u].phase) > 0;
      OnwardGoes(s, u);
      var a := Onward(s, u);
      var next := Next(s, a);
      ToGoUpdate(s.tasks, u, next.tasks[u]);
      OthersStay(s, a);
      StaysSound(s, a);
      var rest;
      rest, s' := ReleaseAll(next, t);
      PlayFirst(s, a, rest, s');
      actions := [a] + rest;
    }
  }

  /** With no memory in use, whoever holds the lock gives it up. */
  lemma GiveWay(s: State, t: nat) returns (actions: seq<Action>, s': State)
    requires Sound(s) && s.current == 0 && t < |s.tasks| && s.tasks[t].phase == Queued
    ensures Plays(s, actions, s') && Sound(s') && LockFree(s')
    ensures s'.maxSize == s.maxSize && s'.current == 0 && |s'.tasks| == |s.tasks| && s'.tasks[t] == s.tasks[t]
  {
    if LockFree(s) {
      actions, s' := [], s;
    } else {
      var u: nat :| u < |s.tasks| && HoldsLock(s.tasks[u].phase);
      var a := if s.tasks[u].phase == Checking then Check(u) else Recheck(u);
      LetThroughIffItFits(s, u);
      s' := Next(s, a);
      OthersStay(s, a);
      StaysSound(s, a);
      PlayNext(s, [], s, a);
      actions := [] + [a];
      forall i | 0 <= i < |s'.tasks| ensures !HoldsLock(s'.tasks[i].phase) {
        if i != u {
          assert s'.tasks[i] == s.tasks[i];
        }
      }
    }
  }

  lemma LetThroughFromQueue(s: State, t: nat) returns (actions: seq<Action>, s': State)
    requires Sound(s) && s.current == 0 && t < |s.tasks| && s.tasks[t].phase == Queued
    requires s.tasks[t].size <= s.maxSize
    ensures Plays(s, actions, s') && |s'.tasks| == |s.tasks| && s'.tasks[t] == s.tasks[t].(phase := Passed)
  {
    var s1;
    actions, s1 := GiveWay(s, t);
    var s2 := Next(s1, Acquire(t));
    PlayNext(s, actions, s1, Acquire(t));
    LetThroughIffItFits(s2, t);
    s' := Next(s2, Check(t));
    PlayNext(s, actions + [Acquire(t)], s2, Check(t));
    actions := actions + [Acquire(t)] + [Check(t)];
  }

  predicate InFront(phase: Phase) { phase in {Enqueued, Queued, Checking, Waiting} }

  lemma LetThrough(s: State, t: nat) returns (actions: seq<Action>, s': State)
    requires Sound(s) && t < |s.tasks| && InFront(s.tasks[t].phase)
    requires s.tasks[t].size <= s.maxSize && !s.tasks[t].noWait
    ensures Plays(s, actions, s') && |s'.tasks| == |s.tasks| && s'.tasks[t] == s.tasks[t].(phase := Passed)
  {
    var s1;
    actions, s1 := ReleaseAll(s, t);
    LetThroughIffItFits(s1, t);
    match s1.tasks[t].phase {
    case Checking =>
      s' := Next(s1, Check(t));
      PlayNext(s, actions, s1, Check(t));
      actions := actions + [Check(t)];
    case Waiting =>
      s' := Next(s1, Recheck(t));
      PlayNext(s, actions, s1, Recheck(t));
      actions := actions + [Recheck(t)];
    case Queued =>
      var more;
      more, s' := LetThroughFromQueue(s1, t);
      PlayBoth(s, actions, s1, more, s');
      actions := actions + more;
    case Enqueued =>
      var s2 := Next(s1, Admit(t));
      StaysSound(s1, Admit(t));
      PlayNext(s, actions, s1, Admit(t));
      var more;
      more, s' := LetThroughFromQueue(s2, t);
      PlayBoth(s, actions + [Admit(t)], s2, more, s');
      actions := actions + [Admit(t)] + more;
    }
  }

  /** From every state of every run, a request that may wait and fits into the cache can still get its memory,
      without anybody giving up and whatever requests are in front of it. */
  lemma NeverStuck(states: seq<State>, actions: seq<Action>, maxSize: nat, i: nat, t: nat)
    returns (more: seq<Action>, s': State)
    requires Run(states, actions, maxSize) && i < |states|
    requires t < |states[i].tasks| && InFront(states[i].tasks[t].phase)
    requires states[i].tasks[t].size <= maxSize && !states[i].tasks[t].noWait
    ensures Plays(states[i], more, s') && t < |s'.tasks| && s'.tasks[t].phase == Live
  {
    var s := states[i];
    OneLockHolder(states, actions, maxSize, i);
    var s1;
    more, s1 := LetThrough(s, t);
    var s2 := Next(s1, Dequeue(t));
    PlayNext(s, more, s1, Dequeue(t));
    s' := Next(s2, Commit(t));
    PlayNext(s, more + [Dequeue(t)], s2, Commit(t));
    more := more + [Dequeue(t)] + [Commit(t)];
  }
}

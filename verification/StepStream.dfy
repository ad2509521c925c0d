/** The server's stream of inference requests: _iterate_inference_steps of petals/server/handler.py merges
    what the client sends with what other servers push, and hands each step on once. */
module StepStream {
  import opened Options

  type StepId = nat

  /** body stands for the tensors; a request without tensors ends the stream. */
  datatype Request = Request(stepId: Option<StepId>, pushed: bool, hasTensors: bool, body: nat)

  /** What is ready when the server waits: the next client request, the next push, both, or nothing until
      the step timeout. */
  datatype Ready = ClientReady | PushReady | BothReady | NothingReady

  datatype Ending = StillWaiting | EmptyRequest(last: Request) | TimedOut | ClientStreamEnded | PushQueueBroken

  /** The requests handed on out of those that were received: the first of each step id, and all without one. */
  function HandedOn(received: seq<Request>): seq<Request> {
    if received == [] then []
    else
      var before, last := HandedOn(received[..|received| - 1]), received[|received| - 1];
      if last.stepId.Some? && last.stepId.value in StepIds(before) then before else before + [last]
  }

  function StepIds(requests: seq<Request>): set<StepId> {
    set r | r in requests && r.stepId.Some? :: r.stepId.value
  }

  /** No step id is handed on twice; every received step id is handed on; and nothing else is. */
  lemma {:induction false} EachStepOnce(received: seq<Request>)
    ensures var handed := HandedOn(received);
            && (forall i, j :: 0 <= i < j < |handed| && handed[i].stepId.Some? ==> handed[i].stepId != handed[j].stepId)
            && StepIds(handed) == StepIds(received)
            && (forall r :: r in handed ==> r in received)
            && (forall r :: r in received && r.stepId.None? ==> r in handed)
  {
    if received != [] {
      var front, last := received[..|received| - 1], received[|received| - 1];
      EachStepOnce(front);
      assert received == front + [last];
      var before, handed := HandedOn(front), HandedOn(received);
      assert StepIds(received) == StepIds(front) + StepIds([last]);
      if handed != before {
        assert StepIds(handed) == StepIds(before) + StepIds([last]);
        forall i | 0 <= i < |before| && before[i].stepId.Some? ensures before[i].stepId != last.stepId {
          assert before[i].stepId.value in StepIds(before);
        }
      }
    }
  }

  /** The places of the received requests that are handed on: those without a step id, and of each step id the
      first one. */
  ghost predicate FirstsAt(received: seq<Request>, handed: seq<Request>, at: seq<nat>) {
    && |at| == |handed|
    && (forall i, j :: 0 <= i < j < |at| ==> at[i] < at[j])
    && (forall i :: 0 <= i < |at| ==> at[i] < |received| && handed[i] == received[at[i]])
    && (forall k: nat :: k < |received| ==> (k in at <==> IsFirst(received, k)))
  }

  ghost predicate IsFirst(received: seq<Request>, k: nat)
    requires k < |received|
  {
    received[k].stepId.None? || forall i :: 0 <= i < k ==> received[i].stepId != received[k].stepId
  }

  lemma FirstsOneMore(front: seq<Request>, last: Request, handed: seq<Request>, at: seq<nat>)
    requires FirstsAt(front, handed, at)
    ensures var received := front + [last];
            if IsFirst(received, |front|) then FirstsAt(received, handed + [last], at + [|front|])
            else FirstsAt(received, handed, at)
  {
    var received, longer := front + [last], at + [|front|];
    forall k: nat | k < |front| ensures IsFirst(received, k) <==> IsFirst(front, k) {
      assert forall i :: 0 <= i <= k ==> received[i] == front[i];
    }
    hide IsFirst;
    assert longer[|at|] == |front|;
    assert forall k: nat :: k < |front| ==> (k in at <==> k in longer);
    assert |front| !in at;
  }

  /** What is handed on, request by request, in the order in which they were received. */
  lemma {:induction false} HandedOnOneByOne(received: seq<Request>) returns (at: seq<nat>)
    ensures FirstsAt(received, HandedOn(received), at)
  {
    at := [];
    if received != [] {
      var front, last := received[..|received| - 1], received[|received| - 1];
      at := HandedOnOneByOne(front);
      FirstsOneMore(front, last, HandedOn(front), at);
      assert received == front + [last];
      SeenBefore(front, last);
      hide FirstsAt, StepIds;
      if IsFirst(received, |front|) {
        at := at + [|front|];
      }
    }
  }

  lemma SeenBefore(front: seq<Request>, last: Request)
    ensures IsFirst(front + [last], |front|) <==>
              !(last.stepId.Some? && last.stepId.value in StepIds(HandedOn(front)))
  {
    EachStepOnce(front);
    var received := front + [last];
    assert forall i :: 0 <= i < |front| ==> received[i] == front[i] && front[i] in front;
  }

  lemma ReceiveOne(received: seq<Request>, r: Request)
    ensures var before := HandedOn(received);
            && HandedOn(received + [r])
               == (if r.stepId.None? || r.stepId.value !in StepIds(before) then before + [r] else before)
            && StepIds(before + [r]) == StepIds(before) + (if r.stepId.Some? then {r.stepId.value} else {})
    ensures forall x :: x in received + [r] <==> x in received || x == r
  {
  }

  // ---- the order in which requests are taken

  predicate FromClient(ready: Ready) { ready.ClientReady? || ready.BothReady? }

  /** How many of these waits end with a client request, and how many with a push. */
  function ClientTurns(schedule: seq<Ready>): nat {
    if schedule == [] then 0
    else ClientTurns(schedule[..|schedule| - 1]) + if FromClient(schedule[|schedule| - 1]) then 1 else 0
  }

  function PushTurns(schedule: seq<Ready>): nat {
    if schedule == [] then 0
    else PushTurns(schedule[..|schedule| - 1]) + if schedule[|schedule| - 1].PushReady? then 1 else 0
  }

  /** The streams have something to give for every wait, and no wait times out. */
  predicate Served(client: seq<Request>, pushes: seq<Request>, schedule: seq<Ready>) {
    && ClientTurns(schedule) <= |client| && PushTurns(schedule) <= |pushes|
    && forall i :: 0 <= i < |schedule| ==> !schedule[i].NothingReady?
  }

  /** The requests in the order they are taken: the first one, then one per wait. A client request that is
      ready is taken in front of a push. */
  function Order(first: Request, client: seq<Request>, pushes: seq<Request>, schedule: seq<Ready>): (r: seq<Request>)
    requires Served(client, pushes, schedule)
    ensures |r| == |schedule| + 1
  {
    if schedule == [] then [first]
    else
      var front, last := schedule[..|schedule| - 1], schedule[|schedule| - 1];
      Order(first, client, pushes, front)
      + [if FromClient(last) then client[ClientTurns(front)] else pushes[PushTurns(front)]]
  }

  lemma LastTurn(first: Request, client: seq<Request>, pushes: seq<Request>, schedule: seq<Ready>)
    requires schedule != [] && Served(client, pushes, schedule)
    ensures var front, last := schedule[..|schedule| - 1], schedule[|schedule| - 1];
            && Served(client, pushes, front)
            && ClientTurns(schedule) == ClientTurns(front) + (if FromClient(last) then 1 else 0)
            && PushTurns(schedule) == PushTurns(front) + (if FromClient(last) then 0 else 1)
            && (if FromClient(last) then ClientTurns(front) < |client| else PushTurns(front) < |pushes|)
            && Order(first, client, pushes, schedule)
               == Order(first, client, pushes, front)
                  + [if FromClient(last) then client[ClientTurns(front)] else pushes[PushTurns(front)]]
  {
  }

  /** The requests taken are the first one and one prefix of each stream, each as often as it occurs there. */
  lemma {:induction false} OrderTakesPrefixes(first: Request, client: seq<Request>, pushes: seq<Request>,
                                              schedule: seq<Ready>, r: Request)
    requires Served(client, pushes, schedule)
    ensures ClientTurns(schedule) + PushTurns(schedule) == |schedule|
    ensures multiset(Order(first, client, pushes, schedule))[r]
         == multiset([first])[r] + multiset(client[..ClientTurns(schedule)])[r]
            + multiset(pushes[..PushTurns(schedule)])[r]
    decreases |schedule|
  {
    if schedule != [] {
      var front, last := schedule[..|schedule| - 1], schedule[|schedule| - 1];
      var c, p := ClientTurns(front), PushTurns(front);
      hide Order, ClientTurns, PushTurns, Served;
      LastTurn(first, client, pushes, schedule);
      var taken := if FromClient(last) then client[c] else pushes[p];
      OrderTakesPrefixes(first, client, pushes, front, r);
      AppendCounts(Order(first, client, pushes, front), taken, r);
      if FromClient(last) {
        PrefixCounts(client, c, r);
      } else {
        PrefixCounts(pushes, p, r);
      }
    }
  }

  /** How many of the first n waits end with a client request, and how many with a push. */
  ghost function ClientCount(schedule: seq<Ready>, n: nat): nat
    requires n <= |schedule|
  {
    |set i | 0 <= i < n && (schedule[i] == ClientReady || schedule[i] == BothReady)|
  }

  ghost function PushCount(schedule: seq<Ready>, n: nat): nat
    requires n <= |schedule|
  {
    |set i | 0 <= i < n && schedule[i] == PushReady|
  }

  lemma OneMoreWait(schedule: seq<Ready>, n: nat)
    requires n < |schedule|
    ensures var client := schedule[n] == ClientReady || schedule[n] == BothReady;
            && ClientCount(schedule, n + 1) == ClientCount(schedule, n) + (if client then 1 else 0)
            && PushCount(schedule, n + 1) == PushCount(schedule, n) + (if schedule[n] == PushReady then 1 else 0)
  {
    OneMoreClient(schedule, n);
    OneMorePush(schedule, n);
  }

  lemma OneMoreClient(schedule: seq<Ready>, n: nat)
    requires n < |schedule|
    ensures ClientCount(schedule, n + 1)
         == ClientCount(schedule, n) + if schedule[n] == ClientReady || schedule[n] == BothReady then 1 else 0
  {
    var clients := set i | 0 <= i < n && (schedule[i] == ClientReady || schedule[i] == BothReady);
    var more := set i | 0 <= i < n + 1 && (schedule[i] == ClientReady || schedule[i] == BothReady);
    if schedule[n] == ClientReady || schedule[n] == BothReady {
      assert more == clients + {n};
    } else {
      assert more == clients;
    }
  }

  lemma OneMorePush(schedule: seq<Ready>, n: nat)
    requires n < |schedule|
    ensures PushCount(schedule, n + 1) == PushCount(schedule, n) + if schedule[n] == PushReady then 1 else 0
  {
    var pushes := set i | 0 <= i < n && schedule[i] == PushReady;
    var more := set i | 0 <= i < n + 1 && schedule[i] == PushReady;
    if schedule[n] == PushReady {
      assert more == pushes + {n};
    } else {
      assert more == pushes;
    }
  }

  lemma {:induction false} TurnsAreCounts(schedule: seq<Ready>, n: nat)
    requires n <= |schedule|
    ensures ClientTurns(schedule[..n]) == ClientCount(schedule, n) && PushTurns(schedule[..n]) == PushCount(schedule, n)
  {
    if n > 0 {
      TurnsAreCounts(schedule, n - 1);
      OneMoreWait(schedule, n - 1);
      assert schedule[..n][..n - 1] == schedule[..n - 1];
      hide ClientCount, PushCount;
    }
  }

  /** Which request is taken after wait number i: the next one of the client if one is ready, even if a push is
      ready, too; otherwise the next push. */
  lemma {:induction false} OrderAt(first: Request, client: seq<Request>, pushes: seq<Request>, schedule: seq<Ready>,
                                   i: nat)
    requires Served(client, pushes, schedule) && i < |schedule|
    ensures Order(first, client, pushes, schedule)[0] == first
    ensures if schedule[i] == ClientReady || schedule[i] == BothReady
            then ClientCount(schedule, i) < |client|
                 && Order(first, client, pushes, schedule)[i + 1] == client[ClientCount(schedule, i)]
            else PushCount(schedule, i) < |pushes|
                 && Order(first, client, pushes, schedule)[i + 1] == pushes[PushCount(schedule, i)]
    decreases |schedule|
  {
    var front := schedule[..|schedule| - 1];
    if i == |schedule| - 1 {
      TurnsAreCounts(schedule, i);
      if front != [] {
        OrderAt(first, client, pushes, front, 0);
      }
    } else {
      OrderAt(first, client, pushes, front, i);
      SameCounts(schedule, front, i);
    }
  }

  lemma SameCounts(schedule: seq<Ready>, front: seq<Ready>, n: nat)
    requires n <= |front| && front <= schedule
    ensures ClientCount(schedule, n) == ClientCount(front, n) && PushCount(schedule, n) == PushCount(front, n)
  {
    assert (set i | 0 <= i < n && (schedule[i] == ClientReady || schedule[i] == BothReady))
        == (set i | 0 <= i < n && (front[i] == ClientReady || front[i] == BothReady));
    assert (set i | 0 <= i < n && schedule[i] == PushReady) == (set i | 0 <= i < n && front[i] == PushReady);
  }

  lemma PrefixCounts(s: seq<Request>, c: nat, r: Request)
    requires c < |s|
    ensures multiset(s[..c + 1])[r] == multiset(s[..c])[r] + if s[c] == r then 1 else 0
  {
    assert s[..c + 1] == s[..c] + [s[c]];
    AppendCounts(s[..c], s[c], r);
  }

  lemma AppendCounts(s: seq<Request>, x: Request, r: Request)
    ensures multiset(s + [x])[r] == multiset(s)[r] + if x == r then 1 else 0
  {
  }

  /** Why the stream stops after the waits so far. */
  predicate StopsAt(client: seq<Request>, pushes: seq<Request>, schedule: seq<Ready>, n: nat, ending: Ending)
    requires n <= |schedule|
  {
    match ending
    case StillWaiting => n == |schedule|
    case EmptyRequest(last) => !last.hasTensors
    case TimedOut => n < |schedule| && schedule[n].NothingReady?
    case ClientStreamEnded => n < |schedule| && FromClient(schedule[n]) && ClientTurns(schedule[..n]) == |client|
    case PushQueueBroken => n < |schedule| && schedule[n].PushReady? && PushTurns(schedule[..n]) == |pushes|
  }

  /** After n waits: c client requests and p pushes are taken, the last request is still to be handled. */
  ghost predicate Taken(first: Request, client: seq<Request>, pushes: seq<Request>, schedule: seq<Ready>, n: nat,
                        c: nat, p: nat, received: seq<Request>, request: Request)
    requires n <= |schedule|
  {
    && Served(client, pushes, schedule[..n])
    && c == ClientTurns(schedule[..n]) && p == PushTurns(schedule[..n])
    && received + [request] == Order(first, client, pushes, schedule[..n])
  }

  lemma TakeNext(first: Request, client: seq<Request>, pushes: seq<Request>, schedule: seq<Ready>, n: nat, c: nat,
                 p: nat,
                 received: seq<Request>, request: Request)
    requires n < |schedule| && Taken(first, client, pushes, schedule, n, c, p, received, request)
    requires if FromClient(schedule[n]) then c < |client| else schedule[n].PushReady? && p < |pushes|
    ensures if FromClient(schedule[n])
            then Taken(first, client, pushes, schedule, n + 1, c + 1, p, received + [request], client[c])
            else Taken(first, client, pushes, schedule, n + 1, c, p + 1, received + [request], pushes[p])
  {
    assert schedule[..n + 1][..n] == schedule[..n];
  }

  /** _iterate_inference_steps for one schedule of readiness, of which it uses up n waits. The requests are
      taken in exactly the specified order; what is handed on is the first request of each step, and
      nothing of an empty request, which ends the stream. */
  method IterateInferenceSteps(first: Request, client: seq<Request>, pushes: seq<Request>, schedule: seq<Ready>)
    returns (handed: seq<Request>, ending: Ending, n: nat)
    ensures n <= |schedule| && Served(client, pushes, schedule[..n]) && StopsAt(client, pushes, schedule, n, ending)
    ensures var taken := Order(first, client, pushes, schedule[..n]);
            var received := if ending.EmptyRequest? then taken[..n] else taken;
            && handed == HandedOn(received)
            && (forall r :: r in received ==> r.hasTensors)
            && (ending.EmptyRequest? ==> ending.last == taken[n])
  {
    var processed: set<StepId> := {};
    handed, n := [], 0;
    ghost var received: seq<Request> := [];
    var c, p := 0, 0;
    var request := first;
    assert received + [first] == [first];
    while request.hasTensors
      invariant n <= |schedule| && Taken(first, client, pushes, schedule, n, c, p, received, request)
      invariant handed == HandedOn(received) && processed == StepIds(handed)
      invariant forall r :: r in received ==> r.hasTensors
      decreases |schedule| - n
    {
      hide HandedOn, Order;
      ReceiveOne(received, request);
      if request.stepId.None? || request.stepId.value !in processed {
        handed := handed + [request];
        if request.stepId.Some? {
          processed := processed + {request.stepId.value};
        }
      }
      if n == |schedule| {
        ending := StillWaiting;
        return;
      }
      var ready := schedule[n];
      if FromClient(ready) {
        if c == |client| {
          ending := ClientStreamEnded;
          return;
        }
        TakeNext(first, client, pushes, schedule, n, c, p, received, request);
        received := received + [request];
        request := client[c];
        c := c + 1;
      } else if ready.PushReady? {
        if p == |pushes| {
          ending := PushQueueBroken;
          return;
        }
        TakeNext(first, client, pushes, schedule, n, c, p, received, request);
        received := received + [request];
        request := pushes[p];
        p := p + 1;
      } else {
        ending := TimedOut;
        return;
      }
      n := n + 1;
    }
    assert received == Order(first, client, pushes, schedule[..n])[..n];
    ending := EmptyRequest(request);
  }

  /** Every step that the client delivered before the stream stopped is handed on, and no step twice, for
      any interleaving with the pushes. */
  lemma ClientStepsHandedOn(first: Request, client: seq<Request>, pushes: seq<Request>, schedule: seq<Ready>,
                            received: seq<Request>, end: seq<Request>, r: Request)
    requires Served(client, pushes, schedule) && received + end == Order(first, client, pushes, schedule)
    requires r in client[..ClientTurns(schedule)] && r !in end && r.stepId.Some?
    ensures exists i :: 0 <= i < |HandedOn(received)| && HandedOn(received)[i].stepId == r.stepId
    ensures forall i, j :: 0 <= i < j < |HandedOn(received)| && HandedOn(received)[i].stepId == r.stepId ==>
              HandedOn(received)[j].stepId != r.stepId
  {
    OrderTakesPrefixes(first, client, pushes, schedule, r);
    assert r in multiset(client[..ClientTurns(schedule)]);
    assert multiset(received + end)[r] >= multiset(client[..ClientTurns(schedule)])[r];
    assert r in multiset(received + end) && r in received + end;
    EachStepOnce(received);
    assert r.stepId.value in StepIds(received);
  }
}

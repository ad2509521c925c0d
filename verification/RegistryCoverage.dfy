/** When the online ranges cover every layer, and the one way in which successful operations can
    lose that: a shrink plan that has gone stale. */
module RegistryCoverage {
  import opened Options
  import opened Registry
  import opened RegistryInvariant

  ghost predicate Covered(hosts: Hosts, layer: int) {
    exists i :: 0 <= i < |hosts| && hosts[i].status == Online && hosts[i].range.Contains(layer)
  }

  ghost predicate Complete(hosts: Hosts, total: int) {
    forall layer :: 0 <= layer < total ==> Covered(hosts, layer)
  }

  // ---- leave

  lemma RestCovers(hosts: Hosts, total: int, k: nat, layer: int)
    requires Complete(hosts, total) && k < |hosts| && 0 <= layer < total
    requires hosts[k].status == Online ==> !hosts[k].range.Contains(layer)
    ensures Covered(Remove(hosts, k), layer)
  {
    assert Covered(hosts, layer);
    var i :| 0 <= i < |hosts| && hosts[i].status == Online && hosts[i].range.Contains(layer);
    assert Remove(hosts, k)[if i < k then i else i - 1] == hosts[i];
  }

  /** All layers but those of r are covered, and r is free: exactly one hole. */
  ghost predicate OneHole(hosts: Hosts, total: int, r: Range) {
    && r.NonEmpty() && 0 <= r.start && r.end <= total && Free(hosts, r)
    && forall layer :: 0 <= layer < total && !r.Contains(layer) ==> Covered(hosts, layer)
  }

  /** With exactly one hole, any merge that passes the conflict test is with an adjacent host and fills
      precisely the hole. */
  lemma MergeFillsExactly(hosts: Hosts, total: int, d: nat, r: Range)
    requires Inv(hosts, total) && OneHole(hosts, total, r)
    requires d < |hosts| && hosts[d].status == Online && CanMerge(hosts, d, r).Some?
    ensures hosts[d].range.end == r.start || r.end == hosts[d].range.start
    ensures CanMerge(hosts, d, r).value == Hull(hosts[d].range, r)
  {
    var donor := hosts[d];
    assert r.Disjoint(donor.range);
    if donor.range.end != r.start && r.end != donor.range.start {
      var between := if donor.range.end < r.start then donor.range.end else r.end;
      assert Covered(hosts, between);
      var i :| 0 <= i < |hosts| && hosts[i].status == Online && hosts[i].range.Contains(between);
      assert hosts[i].id != donor.id;
      assert Conflicts(hosts[i], donor.id, Hull(donor.range, r));
      assert false;
    }
  }

  lemma FilledIsComplete(hosts: Hosts, total: int, d: nat, r: Range)
    requires Inv(hosts, total) && OneHole(hosts, total, r)
    requires d < |hosts| && hosts[d].status == Online
    requires hosts[d].range.end == r.start || r.end == hosts[d].range.start
    ensures Complete(hosts[d := SetRange(hosts[d], Hull(hosts[d].range, r))], total)
  {
    var after := hosts[d := SetRange(hosts[d], Hull(hosts[d].range, r))];
    forall layer | 0 <= layer < total ensures Covered(after, layer) {
      if r.Contains(layer) {
        assert after[d].range.Contains(layer);
      } else {
        assert Covered(hosts, layer);
        var i :| 0 <= i < |hosts| && hosts[i].status == Online && hosts[i].range.Contains(layer);
        assert after[i].status == Online && after[i].range.Contains(layer);
      }
    }
  }

  /** The hole never starts at layer 0, where the mother sits, so it has a left neighbour. */
  lemma HoleHasNeighbour(hosts: Hosts, total: int, r: Range)
    requires Inv(hosts, total) && OneHole(hosts, total, r)
    ensures AdjacentDonor(hosts, r).Some?
  {
    assert r.Disjoint(hosts[0].range);
    assert Covered(hosts, r.start - 1);
    var i :| 0 <= i < |hosts| && hosts[i].status == Online && hosts[i].range.Contains(r.start - 1);
    assert r.Disjoint(hosts[i].range);
    assert Touches(hosts[i], r);
  }

  lemma {:induction false} SomeCandidateChosen(hosts: Hosts, r: Range, candidates: seq<nat>, chosen: Option<nat>)
    requires forall i :: 0 <= i < |candidates| ==> candidates[i] < |hosts|
    requires chosen.Some? ==> chosen.value < |hosts| && CanMerge(hosts, chosen.value, r).Some?
    requires chosen.Some? || exists i :: 0 <= i < |candidates| && CanMerge(hosts, candidates[i], r).Some?
    ensures ChooseDonor(hosts, r, candidates, chosen).Some?
    decreases |candidates|
  {
    if candidates != [] {
      if CanMerge(hosts, candidates[0], r).None? {
        if chosen.None? {
          var i :| 0 <= i < |candidates| && CanMerge(hosts, candidates[i], r).Some?;
          assert candidates[1..][i - 1] == candidates[i];
        }
        SomeCandidateChosen(hosts, r, candidates[1..], chosen);
      } else if hosts[candidates[0]].role != Mother {
        SomeCandidateChosen(hosts, r, candidates[1..], Some(candidates[0]));
      }
    }
  }

  lemma NeighbourIsCandidate(hosts: Hosts, r: Range)
    requires AdjacentDonor(hosts, r).Some?
    ensures exists i :: 0 <= i < |Candidates(hosts, r)| && CanMerge(hosts, Candidates(hosts, r)[i], r).Some?
  {
    var n := AdjacentDonor(hosts, r).value;
    var c1 := AddCandidate(hosts, [], OnlineMother(hosts));
    var c2 := AddCandidate(hosts, c1, Some(n));
    assert n in c2;
    assert n in Candidates(hosts, r);
    assert CanMerge(hosts, n, r).Some?;
  }

  lemma CandidatesOnline(hosts: Hosts, r: Range)
    ensures forall i :: 0 <= i < |Candidates(hosts, r)| ==> hosts[Candidates(hosts, r)[i]].status == Online
  {
  }

  lemma DonorNextTo(hosts: Hosts, r: Range) returns (d: nat)
    requires AdjacentDonor(hosts, r).Some?
    ensures ChooseDonor(hosts, r, Candidates(hosts, r), None) == Some(d)
    ensures d < |hosts| && hosts[d].status == Online && CanMerge(hosts, d, r).Some?
  {
    NeighbourIsCandidate(hosts, r);
    CandidatesOnline(hosts, r);
    SomeCandidateChosen(hosts, r, Candidates(hosts, r), None);
    ChosenIsOnline(hosts, r, Candidates(hosts, r), None);
    d := ChooseDonor(hosts, r, Candidates(hosts, r), None).value;
  }

  /** Reclaiming the only hole always finds a donor and fills exactly the hole. */
  lemma ReclaimFillsHole(hosts: Hosts, total: int, r: Range)
    requires Inv(hosts, total) && OneHole(hosts, total, r)
    ensures Complete(Reclaim(hosts, r, true).0, total)
  {
    HoleHasNeighbour(hosts, total, r);
    var d := DonorNextTo(hosts, r);
    FillWith(hosts, total, r, d);
  }

  lemma FillWith(hosts: Hosts, total: int, r: Range, d: nat)
    requires Inv(hosts, total) && OneHole(hosts, total, r)
    requires d < |hosts| && hosts[d].status == Online && CanMerge(hosts, d, r).Some?
    ensures Complete(hosts[d := SetRange(hosts[d], CanMerge(hosts, d, r).value)], total)
  {
    MergeFillsExactly(hosts, total, d, r);
    FilledIsComplete(hosts, total, d, r);
  }

  lemma CompleteHasNoFreeRange(hosts: Hosts, total: int, r: Range)
    requires Complete(hosts, total) && r.NonEmpty() && 0 <= r.start && r.end <= total
    ensures !Free(hosts, r)
  {
    assert Covered(hosts, r.start);
  }

  /** Without an online contributor, exactly its layers are open. */
  lemma LeaverLeavesOneHole(hosts: Hosts, total: int, k: nat)
    requires Inv(hosts, total) && Complete(hosts, total)
    requires 0 < k < |hosts| && hosts[k].status == Online
    ensures Inv(Remove(hosts, k), total) && OneHole(Remove(hosts, k), total, hosts[k].range)
  {
    RemoveKeepsInv(hosts, total, k);
    forall layer | 0 <= layer < total && !hosts[k].range.Contains(layer) ensures Covered(Remove(hosts, k), layer) {
      RestCovers(hosts, total, k, layer);
    }
  }

  /** A departure keeps every layer covered if and only if the donor's reload works or the leaver
      hosted nothing. */
  lemma LeaveCoverage(hosts: Hosts, total: int, id: HostId, reloadOk: bool)
    requires Inv(hosts, total) && Complete(hosts, total)
    ensures Complete(Leave(hosts, id, reloadOk).0, total) <==> reloadOk || !LeavesLayersBehind(hosts, id)
  {
    var at := IndexOf(hosts, id);
    if at.Some? && hosts[at.value].role != Mother {
      var host, rest := hosts[at.value], Remove(hosts, at.value);
      RemoveKeepsInv(hosts, total, at.value);
      if host.status == Online {
        LeaverLeavesOneHole(hosts, total, at.value);
        ReclaimFillsHole(rest, total, host.range);
        if Complete(rest, total) {
          CompleteHasNoFreeRange(rest, total, host.range);
        }
        if !reloadOk {
          assert Leave(hosts, id, reloadOk).0 == rest;
        }
      } else {
        CompleteHasNoFreeRange(hosts, total, host.range);
        assert Owned(hosts, host.range);
        var i :| 0 <= i < |hosts| && hosts[i].status == Online && host.range.Within(hosts[i].range);
        assert Covering(hosts[i], host.id, host.range);
        forall layer | 0 <= layer < total ensures Covered(rest, layer) {
          RestCovers(hosts, total, at.value, layer);
        }
      }
    }
  }

  predicate LeavesLayersBehind(hosts: Hosts, id: HostId) {
    var at := IndexOf(hosts, id);
    at.Some? && hosts[at.value].role == Contributor && hosts[at.value].status == Online
  }

  lemma {:induction false} LeaveAllCoverage(hosts: Hosts, total: int, ids: seq<HostId>, reloads: HostId -> bool)
    requires Inv(hosts, total) && Complete(hosts, total)
    requires forall i :: 0 <= i < |ids| ==> reloads(ids[i])
    ensures Complete(LeaveAll(hosts, ids, reloads), total)
    decreases |ids|
  {
    if ids != [] {
      assert reloads(ids[0]);
      LeaveCoverage(hosts, total, ids[0], true);
      LeaveKeepsInv(hosts, total, ids[0], true);
      LeaveAllCoverage(Leave(hosts, ids[0], true).0, total, ids[1..], reloads);
    }
  }

  // ---- mark_ready

  /** The plan fixed at join time still fits: the donor's range is exactly what the plan splits. */
  predicate PlanStillFits(hosts: Hosts, id: HostId) {
    var at := IndexOf(hosts, id);
    at.Some? && hosts[at.value].donorId.Some? && hosts[at.value].shrinkTo.Some? &&
    var d := IndexOf(hosts, hosts[at.value].donorId.value);
    d.Some? && hosts[d.value].range == Range(hosts[at.value].shrinkTo.value.start, Assigned(hosts[at.value]).end)
  }

  /** The guard under which mark_ready hands layers over, instead of failing or finding the host online
      already: the host is pending, its donor is still registered, and the donor's reload works. */
  predicate HandsOver(hosts: Hosts, id: HostId, reloadOk: bool) {
    var at := IndexOf(hosts, id);
    && at.Some? && hosts[at.value].status == Pending
    && hosts[at.value].donorId.Some? && IndexOf(hosts, hosts[at.value].donorId.value).Some?
    && reloadOk
  }

  /** For a pending host, mark_ready succeeds exactly under that guard: the shrink plan is always there, and
      no other reservation is ever in the way. */
  lemma HandsOverIffOk(hosts: Hosts, total: int, id: HostId, reloadOk: bool, now: int)
    requires Inv(hosts, total)
    requires IndexOf(hosts, id).Some? && hosts[IndexOf(hosts, id).value].status == Pending
    ensures HandsOver(hosts, id, reloadOk) <==> MarkReady(hosts, id, reloadOk, now).1.Ok?
  {
    var at := IndexOf(hosts, id).value;
    assert PlanMatches(hosts, hosts[at]);
    forall i | 0 <= i < |hosts|
      ensures !BlocksShrink(hosts[i], hosts[at], hosts[at].donorId.value, hosts[at].shrinkTo.value)
    {
      if i != at {
        assert hosts[i].status == Online;
      }
    }
  }

  lemma HandOverOwners(hosts: Hosts, total: int, after: Hosts, at: nat, d: nat, layer: int)
    requires Inv(hosts, total) && |after| == |hosts|
    requires at < |hosts| && d < |hosts| && at != d
    requires hosts[d].status == Online && hosts[at].status == Pending
    requires after[d].status == Online && after[at].status == Online
    requires after[at].range.Within(hosts[d].range) && after[d].range.Within(hosts[d].range)
    requires forall i :: 0 <= i < |hosts| && i != d && i != at ==> after[i] == hosts[i]
    ensures Covered(after, layer) <==>
              if hosts[d].range.Contains(layer) then after[d].range.Contains(layer) || after[at].range.Contains(layer)
              else Covered(hosts, layer)
  {
  }

  /** While the plan fits, a completed hand-over splits the donor's range in two: the donor keeps the low
      part and the new host serves the rest. All other hosts stay as they are. */
  lemma HandOverSplits(hosts: Hosts, total: int, id: HostId, now: int) returns (at: nat, d: nat)
    requires Inv(hosts, total) && HandsOver(hosts, id, true) && PlanStillFits(hosts, id)
    ensures var after := MarkReady(hosts, id, true, now).0;
            && |after| == |hosts| && at < |hosts| && d < |hosts| && at != d
            && hosts[at].id == after[at].id == id && after[at].status == Online && after[d].status == Online
            && after[d].range.start == hosts[d].range.start && after[d].range.end == after[at].range.start
            && after[at].range.end == hosts[d].range.end && after[at].range == hosts[at].range
            && forall i :: 0 <= i < |hosts| && i != at && i != d ==> after[i] == hosts[i]
  {
    HandsOverIffOk(hosts, total, id, true, now);
    at, d := ReadyShape(hosts, total, id, now);
    IndexIsUnique(hosts, d);
  }

  /** A completed hand-over keeps every layer covered if and only if the plan still fits. Otherwise the
      layers merged onto the donor since the join are dropped. */
  lemma ReadyCoverage(hosts: Hosts, total: int, id: HostId, reloadOk: bool, now: int)
    requires Inv(hosts, total) && Complete(hosts, total)
    ensures Complete(MarkReady(hosts, id, reloadOk, now).0, total)
            <==> (HandsOver(hosts, id, reloadOk) ==> PlanStillFits(hosts, id))
  {
    if IndexOf(hosts, id).Some? && hosts[IndexOf(hosts, id).value].status == Pending {
      HandsOverIffOk(hosts, total, id, reloadOk, now);
    }
    if HandsOver(hosts, id, reloadOk) {
      var after := MarkReady(hosts, id, reloadOk, now).0;
      var at, d := ReadyShape(hosts, total, id, now);
      IndexIsUnique(hosts, d);
      var cut, mine, old_ := hosts[at].shrinkTo.value, hosts[at].range, hosts[d].range;
      assert Range(cut.start, mine.end).Within(old_);
      forall layer ensures Covered(after, layer) <==>
        if old_.Contains(layer) then cut.start <= layer < mine.end else Covered(hosts, layer)
      {
        HandOverOwners(hosts, total, after, at, d, layer);
      }
      if !PlanStillFits(hosts, id) {
        var lost := if old_.start < cut.start then old_.start else old_.end - 1;
        assert !Covered(after, lost);
      }
    }
  }

  // ---- steps and runs

  /** The hosts that a reaper will make leave, in order. */
  function StaleIds(hosts: Hosts, now: int, ttl: int): seq<HostId> {
    Select(hosts, (h: Host) => Stale(h, now, ttl))
  }

  ghost predicate AllReload(ids: seq<HostId>, reloads: HostId -> bool) {
    forall i :: 0 <= i < |ids| ==> reloads(ids[i])
  }

  /** Reaping hosts that never became ready keeps every layer covered, whatever reloads fail: a pending
      host serves nothing, and there is at most one. */
  lemma PendingReapCoverage(hosts: Hosts, total: int, now: int, ttl: int, reloads: HostId -> bool)
    requires Inv(hosts, total) && Complete(hosts, total)
    ensures Complete(LeaveAll(hosts, Select(hosts, (h: Host) => StalePending(h, now, ttl)), reloads), total)
  {
    NobodyServesLeaves(hosts, total, Select(hosts, (h: Host) => StalePending(h, now, ttl)), reloads) by {
      forall id | id in Select(hosts, (h: Host) => StalePending(h, now, ttl)) ensures !LeavesLayersBehind(hosts, id) {
        SelectFinds(hosts, (h: Host) => StalePending(h, now, ttl), id);
        var i :| 0 <= i < |hosts| && hosts[i].id == id && StalePending(hosts[i], now, ttl);
        IndexIsUnique(hosts, i);
      }
    }
  }

  /** Departures of hosts that serve nothing keep every layer covered. */
  lemma {:induction false} NobodyServesLeaves(hosts: Hosts, total: int, ids: seq<HostId>, reloads: HostId -> bool)
    requires Inv(hosts, total) && Complete(hosts, total)
    requires forall id :: id in ids ==> !LeavesLayersBehind(hosts, id)
    ensures Complete(LeaveAll(hosts, ids, reloads), total)
    decreases |ids|
  {
    if ids != [] {
      var ok := reloads(ids[0]);
      LeaveCoverage(hosts, total, ids[0], ok);
      LeaveKeepsInv(hosts, total, ids[0], ok);
      forall id | id in ids[1..] ensures !LeavesLayersBehind(Leave(hosts, ids[0], ok).0, id) {
        ServingStaysServing(hosts, total, ids[0], ok, id);
      }
      NobodyServesLeaves(Leave(hosts, ids[0], ok).0, total, ids[1..], reloads);
    }
  }

  lemma ReclaimKeepsParts(hosts: Hosts, r: Range, reloadOk: bool)
    ensures var after := Reclaim(hosts, r, reloadOk).0;
            && |after| == |hosts|
            && forall i :: 0 <= i < |hosts| ==>
                 after[i].id == hosts[i].id && after[i].role == hosts[i].role && after[i].status == hosts[i].status
  {
  }

  predicate SamePart(h: Host, g: Host) {
    h.id == g.id && h.role == g.role && h.status == g.status
  }

  lemma LeaveShape(hosts: Hosts, id: HostId, reloadOk: bool)
    requires IndexOf(hosts, id).Some? && hosts[IndexOf(hosts, id).value].role != Mother
    ensures var k, after := IndexOf(hosts, id).value, Leave(hosts, id, reloadOk).0;
            && |after| == |hosts| - 1
            && forall i :: 0 <= i < |after| ==> SamePart(after[i], hosts[if i < k then i else i + 1])
  {
    var k := IndexOf(hosts, id).value;
    ReclaimKeepsParts(Remove(hosts, k), hosts[k].range, reloadOk);
  }

  lemma ServingAt(hosts: Hosts, x: HostId)
    requires UniqueIds(hosts)
    ensures LeavesLayersBehind(hosts, x) <==>
              exists i :: 0 <= i < |hosts| && hosts[i].id == x && hosts[i].role == Contributor
                          && hosts[i].status == Online
  {
  }

  /** A departure changes nobody else's part: the others serve layers exactly as before. */
  lemma ServingStaysServing(hosts: Hosts, total: int, id: HostId, reloadOk: bool, x: HostId)
    requires Inv(hosts, total)
    ensures LeavesLayersBehind(Leave(hosts, id, reloadOk).0, x) <==>
              LeavesLayersBehind(hosts, x) && x != id
  {
    var at := IndexOf(hosts, id);
    if at.Some? && hosts[at.value].role != Mother {
      LeaveKeepsInv(hosts, total, id, reloadOk);
      LeaveShape(hosts, id, reloadOk);
      PartsDecide(hosts, at.value, Leave(hosts, id, reloadOk).0, x);
    }
  }

  lemma PartsDecide(hosts: Hosts, k: nat, after: Hosts, x: HostId)
    requires UniqueIds(hosts) && UniqueIds(after) && k < |hosts| && |after| == |hosts| - 1
    requires forall i :: 0 <= i < |after| ==> SamePart(after[i], hosts[if i < k then i else i + 1])
    ensures LeavesLayersBehind(after, x) <==> LeavesLayersBehind(hosts, x) && x != hosts[k].id
  {
    ServingAt(hosts, x);
    ServingAt(after, x);
    hide LeavesLayersBehind;
    if i :| && 0 <= i < |hosts| && i != k
            && hosts[i].id == x && hosts[i].role == Contributor && hosts[i].status == Online {
      assert SamePart(after[if i < k then i else i - 1], hosts[i]);
    }
    if i :| 0 <= i < |after| && after[i].id == x && after[i].role == Contributor && after[i].status == Online {
      assert SamePart(after[i], hosts[if i < k then i else i + 1]);
    }
  }

  lemma {:induction false} LeaveAllAppend(hosts: Hosts, ids: seq<HostId>, last: HostId, reloads: HostId -> bool)
    ensures LeaveAll(hosts, ids + [last], reloads) == Leave(LeaveAll(hosts, ids, reloads), last, reloads(last)).0
    decreases |ids|
  {
    if ids == [] {
      assert ids + [last] == [last];
    } else {
      assert (ids + [last])[1..] == ids[1..] + [last];
      LeaveAllAppend(Leave(hosts, ids[0], reloads(ids[0])).0, ids[1..], last, reloads);
    }
  }

  lemma {:induction false} StillServing(hosts: Hosts, total: int, ids: seq<HostId>, reloads: HostId -> bool, x: HostId)
    requires Inv(hosts, total) && x !in ids && LeavesLayersBehind(hosts, x)
    ensures LeavesLayersBehind(LeaveAll(hosts, ids, reloads), x)
    decreases |ids|
  {
    if ids != [] {
      ServingStaysServing(hosts, total, ids[0], reloads(ids[0]), x);
      LeaveKeepsInv(hosts, total, ids[0], reloads(ids[0]));
      StillServing(Leave(hosts, ids[0], reloads(ids[0])).0, total, ids[1..], reloads, x);
    }
  }

  /** A serving host whose layers nobody reloads takes them away, whether or not others were lost before. */
  lemma FailedLeaveLoses(hosts: Hosts, total: int, id: HostId)
    requires Inv(hosts, total) && LeavesLayersBehind(hosts, id)
    ensures !Complete(Leave(hosts, id, false).0, total)
  {
    var at := IndexOf(hosts, id).value;
    RemoveKeepsInv(hosts, total, at);
    assert Leave(hosts, id, false).0 == Remove(hosts, at);
    if Complete(Remove(hosts, at), total) {
      CompleteHasNoFreeRange(Remove(hosts, at), total, hosts[at].range);
    }
  }

  lemma {:induction false} SelectIsDuplicateFree(hosts: Hosts, p: Host -> bool)
    requires UniqueIds(hosts)
    ensures forall i, j :: 0 <= i < j < |Select(hosts, p)| ==> Select(hosts, p)[i] != Select(hosts, p)[j]
  {
    if hosts != [] {
      var front := hosts[..|hosts| - 1];
      SelectIsDuplicateFree(front, p);
      SelectFinds(front, p, hosts[|hosts| - 1].id);
      assert forall i :: 0 <= i < |Select(front, p)| ==> Select(front, p)[i] in Select(front, p);
    }
  }

  /** Reaping stale hosts keeps every layer covered if all their reloads work, and loses layers if the last
      of them fails. In between it depends on the order, because a later departure can carry an earlier hole
      along; OpenLayers follows the holes. */
  lemma StaleReapCoverage(hosts: Hosts, total: int, now: int, ttl: int, reloads: HostId -> bool)
    requires Inv(hosts, total) && Complete(hosts, total)
    ensures var ids := StaleIds(hosts, now, ttl);
            && (AllReload(ids, reloads) ==> Complete(LeaveAll(hosts, ids, reloads), total))
            && (ids != [] && !reloads(ids[|ids| - 1]) ==> !Complete(LeaveAll(hosts, ids, reloads), total))
  {
    var stale := (h: Host) => Stale(h, now, ttl);
    var ids := StaleIds(hosts, now, ttl);
    if AllReload(ids, reloads) {
      LeaveAllCoverage(hosts, total, ids, reloads);
    }
    if ids != [] && !reloads(ids[|ids| - 1]) {
      var front, last := ids[..|ids| - 1], ids[|ids| - 1];
      assert ids == front + [last];
      SelectFinds(hosts, stale, last);
      var i :| 0 <= i < |hosts| && hosts[i].id == last && stale(hosts[i]);
      IndexIsUnique(hosts, i);
      SelectIsDuplicateFree(hosts, stale);
      StillServing(hosts, total, front, reloads, last);
      LeaveAllKeepsInv(hosts, total, front, reloads);
      LeaveAllAppend(hosts, front, last, reloads);
      FailedLeaveLoses(LeaveAll(hosts, front, reloads), total, last);
    }
  }

  // ---- which layers several departures lose

  function LayersOf(r: Range): set<int> {
    set layer | r.start <= layer < r.end && r.Contains(layer)
  }

  /** The layers that the departing host serves. */
  function LeftBehind(hosts: Hosts, id: HostId): set<int> {
    if LeavesLayersBehind(hosts, id) then LayersOf(hosts[IndexOf(hosts, id).value].range) else {}
  }

  /** All layers of the host that takes the departing host's range over: its own, those of that range, and what
      lies in between. None if the reload fails or nobody can take the range over. */
  function TakenOver(hosts: Hosts, id: HostId, reloadOk: bool): set<int> {
    var at := IndexOf(hosts, id);
    if at.None? || hosts[at.value].role == Mother || !NeedsReclaim(hosts, hosts[at.value]) || !reloadOk then {}
    else
      var rest, r := Remove(hosts, at.value), hosts[at.value].range;
      var donor := ChooseDonor(rest, r, Candidates(rest, r), None);
      if donor.None? then {} else LayersOf(CanMerge(rest, donor.value, r).value)
  }

  /** The open holes after a list of departures: each one opens the leaver's layers and closes, along with
      them, every earlier hole that the range taken over spans. */
  function OpenLayers(hosts: Hosts, ids: seq<HostId>, reloads: HostId -> bool, open: set<int>): set<int>
    decreases |ids|
  {
    if ids == [] then open
    else
      var ok := reloads(ids[0]);
      OpenLayers(Leave(hosts, ids[0], ok).0, ids[1..], reloads,
                 open + LeftBehind(hosts, ids[0]) - TakenOver(hosts, ids[0], ok))
  }

  ghost function Uncovered(hosts: Hosts, total: int): set<int> {
    set layer | 0 <= layer < total && !Covered(hosts, layer)
  }

  lemma CompleteIffNothingUncovered(hosts: Hosts, total: int)
    ensures Complete(hosts, total) <==> Uncovered(hosts, total) == {}
  {
    if Uncovered(hosts, total) == {} {
      forall layer | 0 <= layer < total ensures Covered(hosts, layer) {
        assert layer !in Uncovered(hosts, total);
      }
    }
  }

  /** Without host k, a layer is covered if it was, and not by host k. */
  lemma RemovedCover(hosts: Hosts, k: nat, layer: int)
    requires OnlineDisjoint(hosts) && k < |hosts|
    ensures Covered(Remove(hosts, k), layer)
            <==> Covered(hosts, layer) && !(hosts[k].status == Online && hosts[k].range.Contains(layer))
  {
    var rest := Remove(hosts, k);
    if i :| 0 <= i < |hosts| && i != k && hosts[i].status == Online && hosts[i].range.Contains(layer) {
      assert rest[if i < k then i else i - 1] == hosts[i];
    }
    if i :| 0 <= i < |rest| && rest[i].status == Online && rest[i].range.Contains(layer) {
      assert hosts[if i < k then i else i + 1] == rest[i];
    }
  }

  /** A host whose range grows covers what its new range contains, and nothing else changes. */
  lemma GrownCover(hosts: Hosts, d: nat, r: Range, layer: int)
    requires d < |hosts| && hosts[d].status == Online && hosts[d].range.Within(r)
    ensures Covered(hosts[d := SetRange(hosts[d], r)], layer) <==> Covered(hosts, layer) || r.Contains(layer)
  {
    var after := hosts[d := SetRange(hosts[d], r)];
    if r.Contains(layer) {
      assert after[d].range.Contains(layer);
    }
    if i :| 0 <= i < |hosts| && hosts[i].status == Online && hosts[i].range.Contains(layer) {
      assert after[i].status == Online && after[i].range.Contains(layer);
    }
    if i :| 0 <= i < |after| && i != d && after[i].status == Online && after[i].range.Contains(layer) {
      assert hosts[i] == after[i];
    }
  }

  lemma ReclaimCover(rest: Hosts, r: Range, reloadOk: bool, layer: int)
    requires r.NonEmpty()
    ensures var donor := ChooseDonor(rest, r, Candidates(rest, r), None);
            Covered(Reclaim(rest, r, reloadOk).0, layer)
            <==> Covered(rest, layer)
                 || (donor.Some? && reloadOk && CanMerge(rest, donor.value, r).value.Contains(layer))
  {
    hide Covered, Candidates, ChooseDonor;
    var donor := ChooseDonor(rest, r, Candidates(rest, r), None);
    DonorIsOnline(rest, r);
    if donor.Some? && reloadOk {
      GrownCover(rest, donor.value, CanMerge(rest, donor.value, r).value, layer);
    }
  }

  lemma LeaveCover(hosts: Hosts, total: int, id: HostId, reloadOk: bool, layer: int)
    requires Inv(hosts, total)
    ensures Covered(Leave(hosts, id, reloadOk).0, layer)
            <==> (Covered(hosts, layer) && layer !in LeftBehind(hosts, id)) || layer in TakenOver(hosts, id, reloadOk)
  {
    hide Covered, Candidates, ChooseDonor, CanMerge;
    var at := IndexOf(hosts, id);
    if at.Some? && hosts[at.value].role != Mother {
      RemovedCover(hosts, at.value, layer);
      ReclaimCover(Remove(hosts, at.value), hosts[at.value].range, reloadOk, layer);
    }
  }

  /** What one departure does to the holes. */
  lemma LeaveMovesHoles(hosts: Hosts, total: int, id: HostId, reloadOk: bool)
    requires Inv(hosts, total)
    ensures Uncovered(Leave(hosts, id, reloadOk).0, total)
         == Uncovered(hosts, total) + LeftBehind(hosts, id) - TakenOver(hosts, id, reloadOk)
  {
    var after := Leave(hosts, id, reloadOk).0;
    hide Covered, Leave, TakenOver;
    forall layer
      ensures layer in Uncovered(after, total)
              <==> layer in Uncovered(hosts, total) + LeftBehind(hosts, id) - TakenOver(hosts, id, reloadOk)
    {
      LeaveCover(hosts, total, id, reloadOk, layer);
    }
  }

  /** The holes after any departures, whatever reloads fail. */
  lemma {:induction false} OpenLayersAreUncovered(hosts: Hosts, total: int, ids: seq<HostId>, reloads: HostId -> bool)
    requires Inv(hosts, total)
    ensures OpenLayers(hosts, ids, reloads, Uncovered(hosts, total)) == Uncovered(LeaveAll(hosts, ids, reloads), total)
    decreases |ids|
  {
    if ids != [] {
      var ok := reloads(ids[0]);
      LeaveMovesHoles(hosts, total, ids[0], ok);
      LeaveKeepsInv(hosts, total, ids[0], ok);
      OpenLayersAreUncovered(Leave(hosts, ids[0], ok).0, total, ids[1..], reloads);
    }
  }

  /** Departures keep every layer covered if and only if no hole is open after the last of them. */
  lemma LeaveAllCoverageIff(hosts: Hosts, total: int, ids: seq<HostId>, reloads: HostId -> bool)
    requires Inv(hosts, total) && Complete(hosts, total)
    ensures Complete(LeaveAll(hosts, ids, reloads), total) <==> OpenLayers(hosts, ids, reloads, {}) == {}
  {
    CompleteIffNothingUncovered(hosts, total);
    CompleteIffNothingUncovered(LeaveAll(hosts, ids, reloads), total);
    OpenLayersAreUncovered(hosts, total, ids, reloads);
  }

  /** The steps that lose no layer. */
  ghost predicate KeepsCoverage(hosts: Hosts, step: Step) {
    match step
    case JoinStep(_, _, _, _) => true
    case HeartbeatStep(_, _) => true
    case ReadyStep(id, ok, now) => HandsOver(hosts, id, ok) ==> PlanStillFits(hosts, id)
    case LeaveStep(id, ok) => ok || !LeavesLayersBehind(hosts, id)
    case ReapStale(now, ttl, reloads) => OpenLayers(hosts, StaleIds(hosts, now, ttl), reloads, {}) == {}
    case ReapStalePending(now, ttl, reloads) => true
  }

  lemma OnlineRangesKept(hosts: Hosts, after: Hosts, total: int)
    requires Complete(hosts, total) && |hosts| <= |after|
    requires forall i :: 0 <= i < |hosts| ==> after[i].status == hosts[i].status && after[i].range == hosts[i].range
    ensures Complete(after, total)
  {
    forall layer | 0 <= layer < total ensures Covered(after, layer) {
      assert Covered(hosts, layer);
      var i :| 0 <= i < |hosts| && hosts[i].status == Online && hosts[i].range.Contains(layer);
      assert after[i].range.Contains(layer);
    }
  }

  /** Joining never loses a layer: the donor serves on until the hand-over. */
  lemma JoinCoverage(hosts: Hosts, total: int, layers: int, id: HostId, wallet: string, now: int)
    requires Complete(hosts, total)
    ensures Complete(Join(hosts, total, layers, id, wallet, now).0, total)
  {
    OnlineRangesKept(hosts, Join(hosts, total, layers, id, wallet, now).0, total);
  }

  /** A step keeps a complete layer map complete exactly when it is of the coverage-keeping kind. */
  lemma StepCoverage(hosts: Hosts, total: int, step: Step)
    requires Inv(hosts, total) && Complete(hosts, total)
    ensures Complete(Apply(hosts, total, step), total) <==> KeepsCoverage(hosts, step)
  {
    match step
    case JoinStep(layers, id, wallet, now) => JoinCoverage(hosts, total, layers, id, wallet, now);
    case HeartbeatStep(id, now) => OnlineRangesKept(hosts, Apply(hosts, total, step), total);
    case ReadyStep(id, ok, now) => ReadyCoverage(hosts, total, id, ok, now);
    case LeaveStep(id, ok) => LeaveCoverage(hosts, total, id, ok);
    case ReapStale(now, ttl, reloads) => LeaveAllCoverageIff(hosts, total, StaleIds(hosts, now, ttl), reloads);
    case ReapStalePending(now, ttl, reloads) => PendingReapCoverage(hosts, total, now, ttl, reloads);
  }

  /** While every step is of the coverage-keeping kind, the online ranges are an exact partition of
      0 .. total: each layer is on exactly one online host. */
  lemma {:induction false} RunsKeepCoverage(states: seq<Hosts>, steps: seq<Step>, total: int, k: nat)
    requires Run(states, steps, total) && total >= 1 && k < |states|
    requires forall i :: 0 <= i < k ==> KeepsCoverage(states[i], steps[i])
    ensures Inv(states[k], total) && Complete(states[k], total)
  {
    RunsKeepInv(states, steps, total, k);
    if k == 0 {
      forall layer | 0 <= layer < total ensures Covered(states[0], layer) {
        assert states[0][0].range.Contains(layer);
      }
    } else {
      RunsKeepCoverage(states, steps, total, k - 1);
      assert states[k - 1 + 1] == Apply(states[k - 1], total, steps[k - 1]);
      StepCoverage(states[k - 1], total, steps[k - 1]);
    }
  }
}

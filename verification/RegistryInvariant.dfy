/** What every registry operation keeps, and the states that runs can reach. */
module RegistryInvariant {
  import opened Options
  import opened Registry

  lemma IndexIsUnique(hosts: Hosts, i: nat)
    requires UniqueIds(hosts) && i < |hosts|
    ensures IndexOf(hosts, hosts[i].id) == Some(i)
  {
  }

  lemma OnlineApart(hosts: Hosts, i: nat, j: nat)
    requires OnlineDisjoint(hosts) && i < |hosts| && j < |hosts| && i != j
    requires hosts[i].status == Online && hosts[j].status == Online
    ensures hosts[i].range.Disjoint(hosts[j].range)
  {
  }

  // ---- join

  lemma {:induction false} NothingReserved(hosts: Hosts, donor: Host)
    requires forall i :: 0 <= i < |hosts| ==> hosts[i].status != Pending
    ensures EffectiveEnd(hosts, donor) == donor.range.end
  {
    if hosts != [] {
      NothingReserved(hosts[..|hosts| - 1], donor);
    }
  }

  lemma ReservationIsSound(hosts: Hosts, total: int, d: nat, p: Host)
    requires Inv(hosts, total) && d < |hosts| && hosts[d].status == Online
    requires forall i :: 0 <= i < |hosts| ==> hosts[i].status != Pending && hosts[i].id != p.id
    requires p.pendingRange == Some(p.range) && p.donorId == Some(hosts[d].id) && p.range.Within(hosts[d].range)
    requires p.shrinkTo == Some(Range(hosts[d].range.start, p.range.start)) && hosts[d].range.start < p.range.start
    ensures PendingSound(hosts + [p])
  {
  }

  ghost predicate LargestOnline(hosts: Hosts, d: int) {
    && 0 <= d < |hosts| && hosts[d].status == Online
    && forall i :: 0 <= i < |hosts| && hosts[i].status == Online ==> hosts[i].range.Length() <= hosts[d].range.Length()
  }

  /** A successful join appends one host with exactly the requested number of layers, cut off the high end
      of a largest online host, which will keep at least one; nobody else is touched. */
  lemma JoinReserves(hosts: Hosts, total: int, layers: int, id: HostId, wallet: string, now: int) returns (d: nat)
    requires Inv(hosts, total) && Join(hosts, total, layers, id, wallet, now).1.Ok?
    ensures LargestOnline(hosts, d) && layers >= 1
    ensures forall i :: 0 <= i < |hosts| ==> hosts[i].status != Pending
    ensures var end := hosts[d].range.end;
            && hosts[d].range.start < end - layers
            && Join(hosts, total, layers, id, wallet, now).0
               == hosts + [NewHost(id, Range(end - layers, end), hosts[d].id, Range(hosts[d].range.start, end - layers),
                                   wallet, now)]
  {
    hide ValidWallet;
    d := LargestDonor(hosts).value;
    NothingReserved(hosts, hosts[d]);
  }

  lemma AppendKeepsInv(hosts: Hosts, total: int, d: nat, p: Host)
    requires Inv(hosts, total) && d < |hosts| && hosts[d].status == Online
    requires forall i :: 0 <= i < |hosts| ==> hosts[i].status != Pending && hosts[i].id != p.id
    requires p.role == Contributor && p.status == Pending && p.layersHosted == p.range.Length() > 0
    requires p.pendingRange == Some(p.range) && p.donorId == Some(hosts[d].id) && p.range.Within(hosts[d].range)
    requires p.shrinkTo == Some(Range(hosts[d].range.start, p.range.start)) && hosts[d].range.start < p.range.start
    ensures Inv(hosts + [p], total)
  {
    ReservationIsSound(hosts, total, d, p);
  }

  lemma JoinKeepsInv(hosts: Hosts, total: int, layers: int, id: HostId, wallet: string, now: int)
    requires Inv(hosts, total) && IndexOf(hosts, id).None?
    ensures Inv(Join(hosts, total, layers, id, wallet, now).0, total)
  {
    if Join(hosts, total, layers, id, wallet, now).1.Ok? {
      var d := JoinReserves(hosts, total, layers, id, wallet, now);
      AppendKeepsInv(hosts, total, d, Join(hosts, total, layers, id, wallet, now).0[|hosts|]);
    }
  }

  // ---- changing the range of one online host

  /** A host takes over a larger range that nobody else is on. */
  lemma WideningKeepsInv(hosts: Hosts, total: int, d: nat, r: Range)
    requires Inv(hosts, total) && d < |hosts| && hosts[d].status == Online
    requires hosts[d].range.Within(r) && 0 <= r.start && r.end <= total
    requires d == 0 ==> r.start == 0
    requires forall i :: 0 <= i < |hosts| && i != d && hosts[i].status == Online ==> r.Disjoint(hosts[i].range)
    requires forall i :: 0 <= i < |hosts| && hosts[i].status == Pending ==>
               hosts[i].range.Within(r) || hosts[i].range.Disjoint(r)
               || exists j :: 0 <= j < |hosts| && j != d && hosts[j].status == Online
                              && hosts[i].range.Within(hosts[j].range)
    ensures Inv(hosts[d := SetRange(hosts[d], r)], total)
  {
    var after := hosts[d := SetRange(hosts[d], r)];
    forall i | 0 <= i < |after| && after[i].status == Pending
      ensures PlanMatches(after, after[i]) && (Owned(after, after[i].range) || Free(after, after[i].range))
    {
      assert PlanMatches(hosts, hosts[i]);
      var p := hosts[i];
      assert after[i] == p;
      forall j | 0 <= j < |after| && after[j].id == p.donorId.value
        ensures Range(p.shrinkTo.value.start, p.range.end).Within(after[j].range)
      {
        assert hosts[j].id == p.donorId.value;
      }
      if p.range.Within(r) {
        assert after[d].range == r;
        assert Owned(after, p.range);
      } else if k :| 0 <= k < |hosts| && k != d && hosts[k].status == Online && p.range.Within(hosts[k].range) {
        assert after[k] == hosts[k];
        assert Owned(after, p.range);
      } else {
        assert p.range.Disjoint(r);
        assert Free(hosts, p.range);
        assert Free(after, p.range);
      }
    }
  }

  // ---- leave

  /** Every reservation lies inside r or outside of it. */
  ghost predicate PendingApart(hosts: Hosts, r: Range) {
    forall i :: 0 <= i < |hosts| && hosts[i].status == Pending ==>
      hosts[i].range.Within(r) || hosts[i].range.Disjoint(r)
  }

  /** A reservation when the online host at k is gone: it is still owned by the same other host, or its
      range has become free with the leaver's. */
  lemma ReservationAfterRemove(hosts: Hosts, total: int, k: nat, at: nat)
    requires Inv(hosts, total) && 0 < k < |hosts| && at < |hosts| && at != k && hosts[at].status == Pending
    ensures var after := Remove(hosts, k);
            && PlanMatches(after, hosts[at])
            && (Owned(after, hosts[at].range) || Free(after, hosts[at].range))
            && (hosts[at].range.Within(hosts[k].range) || hosts[at].range.Disjoint(hosts[k].range))
  {
    var after, gone, p := Remove(hosts, k), hosts[k], hosts[at];
    assert gone.status == Online;
    assert PlanMatches(hosts, p);
    if o :| 0 <= o < |hosts| && hosts[o].status == Online && p.range.Within(hosts[o].range) {
      if o != k {
        assert after[if o < k then o else o - 1] == hosts[o];
        OnlineApart(hosts, o, k);
      } else {
        forall j | 0 <= j < |after| && after[j].status == Online ensures p.range.Disjoint(after[j].range) {
          OnlineApart(hosts, k, if j < k then j else j + 1);
        }
      }
    } else {
      assert Free(hosts, p.range);
      assert Free(after, p.range);
    }
  }

  lemma RemoveKeepsInv(hosts: Hosts, total: int, k: nat)
    requires Inv(hosts, total) && 0 < k < |hosts|
    ensures Inv(Remove(hosts, k), total)
    ensures hosts[k].status == Online ==> Free(Remove(hosts, k), hosts[k].range)
    ensures PendingApart(Remove(hosts, k), hosts[k].range)
  {
    var after := Remove(hosts, k);
    forall i | 0 <= i < |after| && after[i].status == Pending
      ensures PlanMatches(after, after[i])
      ensures Owned(after, after[i].range) || Free(after, after[i].range)
      ensures after[i].range.Within(hosts[k].range) || after[i].range.Disjoint(hosts[k].range)
    {
      ReservationAfterRemove(hosts, total, k, if i < k then i else i + 1);
    }
    if hosts[k].status == Online {
      forall i | 0 <= i < |after| && after[i].status == Online ensures hosts[k].range.Disjoint(after[i].range) {
        OnlineApart(hosts, k, if i < k then i else i + 1);
      }
    }
  }

  /** Merging a free range onto an online host: the result contains both, meets no other online host,
      and no reservation straddles its border. */
  lemma MergeIsFree(hosts: Hosts, total: int, d: nat, r: Range)
    requires Inv(hosts, total) && d < |hosts| && hosts[d].status == Online
    requires r.NonEmpty() && 0 <= r.start && r.end <= total && Free(hosts, r) && PendingApart(hosts, r)
    requires CanMerge(hosts, d, r).Some?
    ensures var m := CanMerge(hosts, d, r).value;
            && hosts[d].range.Within(m) && r.Within(m) && 0 <= m.start && m.end <= total
            && (d == 0 ==> m.start == 0)
            && (forall i :: 0 <= i < |hosts| && i != d && hosts[i].status == Online ==> m.Disjoint(hosts[i].range))
            && (forall i :: 0 <= i < |hosts| && hosts[i].status == Pending ==>
                  hosts[i].range.Within(m) || hosts[i].range.Disjoint(m)
                  || exists j :: 0 <= j < |hosts| && j != d && hosts[j].status == Online
                                 && hosts[i].range.Within(hosts[j].range))
  {
  }

  lemma {:induction false} ChosenIsOnline(hosts: Hosts, r: Range, candidates: seq<nat>, chosen: Option<nat>)
    requires forall i :: 0 <= i < |candidates| ==> candidates[i] < |hosts| && hosts[candidates[i]].status == Online
    requires chosen.Some? ==>
               chosen.value < |hosts| && CanMerge(hosts, chosen.value, r).Some? && hosts[chosen.value].status == Online
    ensures var c := ChooseDonor(hosts, r, candidates, chosen); c.Some? ==> hosts[c.value].status == Online
    decreases |candidates|
  {
    if candidates != [] {
      if CanMerge(hosts, candidates[0], r).None? {
        ChosenIsOnline(hosts, r, candidates[1..], chosen);
      } else if hosts[candidates[0]].role != Mother {
        ChosenIsOnline(hosts, r, candidates[1..], Some(candidates[0]));
      }
    }
  }

  /** Whoever takes a range over is online. */
  lemma DonorIsOnline(hosts: Hosts, r: Range)
    ensures var donor := ChooseDonor(hosts, r, Candidates(hosts, r), None);
            donor.Some? ==> hosts[donor.value].status == Online
  {
    ChosenIsOnline(hosts, r, Candidates(hosts, r), None);
  }

  lemma ReclaimKeepsInv(hosts: Hosts, total: int, r: Range, reloadOk: bool)
    requires Inv(hosts, total)
    requires r.NonEmpty() && 0 <= r.start && r.end <= total && Free(hosts, r) && PendingApart(hosts, r)
    ensures Inv(Reclaim(hosts, r, reloadOk).0, total)
  {
    hide Inv, Candidates, ChooseDonor, CanMerge;
    var donor := ChooseDonor(hosts, r, Candidates(hosts, r), None);
    DonorIsOnline(hosts, r);
    if donor.Some? && reloadOk {
      MergeIsFree(hosts, total, donor.value, r);
      WideningKeepsInv(hosts, total, donor.value, CanMerge(hosts, donor.value, r).value);
    }
  }

  lemma LeaveKeepsInv(hosts: Hosts, total: int, id: HostId, reloadOk: bool)
    requires Inv(hosts, total)
    ensures Inv(Leave(hosts, id, reloadOk).0, total)
  {
    var at := IndexOf(hosts, id);
    if at.Some? && hosts[at.value].role != Mother {
      var host := hosts[at.value];
      RemoveKeepsInv(hosts, total, at.value);
      if NeedsReclaim(hosts, host) {
        var rest := Remove(hosts, at.value);
        if host.status == Pending {
          forall i | 0 <= i < |hosts| && hosts[i].status == Online ensures !host.range.Within(hosts[i].range) {
            assert hosts[i].id != host.id;
            assert !Covering(hosts[i], host.id, host.range);
          }
          assert Free(hosts, host.range);
        }
        assert Free(rest, host.range);
        ReclaimKeepsInv(rest, total, host.range, reloadOk);
      }
    }
  }

  lemma {:induction false} LeaveAllKeepsInv(hosts: Hosts, total: int, ids: seq<HostId>, reloadOk: HostId -> bool)
    requires Inv(hosts, total)
    ensures Inv(LeaveAll(hosts, ids, reloadOk), total)
    decreases |ids|
  {
    if ids != [] {
      LeaveKeepsInv(hosts, total, ids[0], reloadOk(ids[0]));
      LeaveAllKeepsInv(Leave(hosts, ids[0], reloadOk(ids[0])).0, total, ids[1..], reloadOk);
    }
  }

  // ---- who is reaped

  predicate Known(hosts: Hosts, id: HostId) { IndexOf(hosts, id).Some? }

  lemma KnownAt(hosts: Hosts, i: nat)
    requires i < |hosts|
    ensures Known(hosts, hosts[i].id)
  {
  }

  lemma RemoveForgets(hosts: Hosts, k: nat, x: HostId)
    requires UniqueIds(hosts) && k < |hosts|
    ensures Known(Remove(hosts, k), x) <==> Known(hosts, x) && x != hosts[k].id
  {
    var rest := Remove(hosts, k);
    if Known(hosts, x) && x != hosts[k].id {
      var i := IndexOf(hosts, x).value;
      KnownAt(rest, if i < k then i else i - 1);
    }
    if Known(rest, x) {
      var i := IndexOf(rest, x).value;
      KnownAt(hosts, if i < k then i else i + 1);
    }
  }

  lemma ReclaimForgetsNobody(hosts: Hosts, r: Range, reloadOk: bool, x: HostId)
    ensures Known(Reclaim(hosts, r, reloadOk).0, x) <==> Known(hosts, x)
  {
    var after := Reclaim(hosts, r, reloadOk).0;
    assert |after| == |hosts|;
    assert forall i :: 0 <= i < |hosts| ==> after[i].id == hosts[i].id;
    if Known(hosts, x) {
      KnownAt(after, IndexOf(hosts, x).value);
    }
    if Known(after, x) {
      KnownAt(hosts, IndexOf(after, x).value);
    }
  }

  /** A departure removes exactly the named contributor. */
  lemma LeaveRemoves(hosts: Hosts, total: int, id: HostId, reloadOk: bool, x: HostId)
    requires Inv(hosts, total)
    ensures Known(Leave(hosts, id, reloadOk).0, x) <==> Known(hosts, x) && (x != id || id == MOTHER)
  {
    var at := IndexOf(hosts, id);
    IndexIsUnique(hosts, 0);
    if at.Some? && hosts[at.value].role != Mother {
      RemoveForgets(hosts, at.value, x);
      ReclaimForgetsNobody(Remove(hosts, at.value), hosts[at.value].range, reloadOk, x);
    }
  }

  lemma {:induction false} LeaveAllRemoves(hosts: Hosts, total: int, ids: seq<HostId>, reloadOk: HostId -> bool,
                                           x: HostId)
    requires Inv(hosts, total) && MOTHER !in ids
    ensures Known(LeaveAll(hosts, ids, reloadOk), x) <==> Known(hosts, x) && x !in ids
    decreases |ids|
  {
    if ids != [] {
      LeaveRemoves(hosts, total, ids[0], reloadOk(ids[0]), x);
      LeaveKeepsInv(hosts, total, ids[0], reloadOk(ids[0]));
      LeaveAllRemoves(Leave(hosts, ids[0], reloadOk(ids[0])).0, total, ids[1..], reloadOk, x);
    }
  }

  lemma {:induction false} SelectFinds(hosts: Hosts, p: Host -> bool, id: HostId)
    ensures id in Select(hosts, p) <==> exists i :: 0 <= i < |hosts| && hosts[i].id == id && p(hosts[i])
  {
    if hosts != [] {
      SelectFinds(hosts[..|hosts| - 1], p, id);
    }
  }

  /** A reaper removes exactly the hosts that satisfy its test when it starts, whatever reloads fail. */
  lemma ReapRemovesExactly(hosts: Hosts, total: int, p: Host -> bool, reloadOk: HostId -> bool, k: nat)
    requires Inv(hosts, total) && k < |hosts|
    requires forall h :: p(h) ==> h.role != Mother
    ensures Known(LeaveAll(hosts, Select(hosts, p), reloadOk), hosts[k].id) <==> !p(hosts[k])
  {
    SelectFinds(hosts, p, MOTHER);
    SelectFinds(hosts, p, hosts[k].id);
    LeaveAllRemoves(hosts, total, Select(hosts, p), reloadOk, hosts[k].id);
    KnownAt(hosts, k);
  }

  // ---- mark_ready

  /** The two hosts that a completed mark_ready changes. */
  lemma ReadyShape(hosts: Hosts, total: int, id: HostId, now: int) returns (at: nat, d: nat)
    requires Inv(hosts, total)
    requires IndexOf(hosts, id).Some? && hosts[IndexOf(hosts, id).value].status == Pending
    requires MarkReady(hosts, id, true, now).1.Ok?
    ensures at == IndexOf(hosts, id).value && at != d && d < |hosts| && hosts[d].status == Online
    ensures PlanMatches(hosts, hosts[at]) && hosts[d].id == hosts[at].donorId.value
    ensures var after := MarkReady(hosts, id, true, now).0;
            && |after| == |hosts|
            && after[d] == SetRange(hosts[d], hosts[at].shrinkTo.value)
            && after[at] == hosts[at].(status := Online, lastHeartbeat := now, pendingRange := None, shrinkTo := None)
            && forall i :: 0 <= i < |hosts| && i != d && i != at ==> after[i] == hosts[i]
  {
    at := IndexOf(hosts, id).value;
    assert PlanMatches(hosts, hosts[at]);
    d := IndexOf(hosts, hosts[at].donorId.value).value;
  }

  lemma ReadyKeepsDisjoint(hosts: Hosts, total: int, after: Hosts, at: nat, d: nat)
    requires Inv(hosts, total) && |after| == |hosts|
    requires at < |hosts| && d < |hosts| && at != d
    requires hosts[d].status == Online
    requires after[at].range.Within(hosts[d].range) && after[d].range.Within(hosts[d].range)
    requires after[at].range.Disjoint(after[d].range)
    requires forall i :: 0 <= i < |hosts| && i != d && i != at ==> after[i] == hosts[i]
    ensures OnlineDisjoint(after)
  {
  }

  /** A completed hand-over: nobody is pending any more, and only ranges and states of two hosts change. */
  lemma HandOverKeepsInv(hosts: Hosts, total: int, after: Hosts, at: nat, d: nat)
    requires Inv(hosts, total) && |after| == |hosts| && at < |hosts| && d < |hosts| && at != d
    requires hosts[at].status == Pending && hosts[d].status == Online && PlanMatches(hosts, hosts[at])
    requires hosts[d].id == hosts[at].donorId.value
    requires after[d] == SetRange(hosts[d], hosts[at].shrinkTo.value)
    requires after[at].status == Online && after[at].id == hosts[at].id && after[at].role == hosts[at].role
    requires after[at].range == hosts[at].range && after[at].layersHosted == hosts[at].layersHosted
    requires forall i :: 0 <= i < |hosts| && i != d && i != at ==> after[i] == hosts[i]
    ensures Inv(after, total)
  {
    assert Range(hosts[at].shrinkTo.value.start, hosts[at].range.end).Within(hosts[d].range);
    ReadyKeepsDisjoint(hosts, total, after, at, d);
    assert forall i :: 0 <= i < |after| ==>
             after[i].status == Online && after[i].id == hosts[i].id && after[i].role == hosts[i].role;
  }

  lemma MarkReadyKeepsInv(hosts: Hosts, total: int, id: HostId, reloadOk: bool, now: int)
    requires Inv(hosts, total)
    ensures Inv(MarkReady(hosts, id, reloadOk, now).0, total)
  {
    var (after, outcome) := MarkReady(hosts, id, reloadOk, now);
    if IndexOf(hosts, id).Some? && hosts[IndexOf(hosts, id).value].status == Pending && outcome.Ok? {
      assert reloadOk;
      var at, d := ReadyShape(hosts, total, id, now);
      HandOverKeepsInv(hosts, total, after, at, d);
    }
  }

  // ---- runs

  lemma StepKeepsInv(hosts: Hosts, total: int, step: Step)
    requires Inv(hosts, total) && Allowed(hosts, step)
    ensures Inv(Apply(hosts, total, step), total)
  {
    match step
    case JoinStep(layers, id, wallet, now) => JoinKeepsInv(hosts, total, layers, id, wallet, now);
    case ReadyStep(id, ok, now) => MarkReadyKeepsInv(hosts, total, id, ok, now);
    case LeaveStep(id, ok) => LeaveKeepsInv(hosts, total, id, ok);
    case ReapStale(now, ttl, reloads) =>
      LeaveAllKeepsInv(hosts, total, Select(hosts, (h: Host) => Stale(h, now, ttl)), reloads);
    case ReapStalePending(now, ttl, reloads) =>
      LeaveAllKeepsInv(hosts, total, Select(hosts, (h: Host) => StalePending(h, now, ttl)), reloads);
    case HeartbeatStep(id, now) => HeartbeatKeepsInv(hosts, total, id, now);
  }

  lemma HeartbeatKeepsInv(hosts: Hosts, total: int, id: HostId, now: int)
    requires Inv(hosts, total)
    ensures Inv(Heartbeat(hosts, id, now).0, total)
  {
    var after := Heartbeat(hosts, id, now).0;
    assert |after| == |hosts|;
    assert forall i :: 0 <= i < |hosts| ==> after[i] == hosts[i].(lastHeartbeat := after[i].lastHeartbeat);
    forall i | 0 <= i < |after| && after[i].status == Pending
      ensures PlanMatches(after, after[i]) && (Owned(after, after[i].range) || Free(after, after[i].range))
    {
      assert PlanMatches(hosts, hosts[i]);
      if o :| 0 <= o < |hosts| && hosts[o].status == Online && hosts[i].range.Within(hosts[o].range) {
        assert after[o].range == hosts[o].range;
      } else {
        assert Free(hosts, hosts[i].range);
      }
    }
  }

  /** In every state of every run, with any pattern of failing reloads: online ranges are pairwise
      disjoint non-empty subranges of 0 .. total, the layer counts are the range lengths, the mother
      starts at layer 0, at most one host is pending, and its range is owned by one host or free. */
  lemma {:induction false} RunsKeepInv(states: seq<Hosts>, steps: seq<Step>, total: int, k: nat)
    requires Run(states, steps, total) && total >= 1 && k < |states|
    ensures Inv(states[k], total)
  {
    if k > 0 {
      RunsKeepInv(states, steps, total, k - 1);
      assert states[k - 1 + 1] == Apply(states[k - 1], total, steps[k - 1]);
      StepKeepsInv(states[k - 1], total, steps[k - 1]);
    }
  }
}

/** The registry object: methods that change the hosts dictionary, each proved against the state
    function of the same name. What a caller learns about layers and hosts follows from the lemmas about
    those functions and is stated with each operation. */
module SwarmRegistryObject {
  import opened Options
  import opened Registry
  import opened RegistryInvariant
  import opened RegistryCoverage
  import opened RegistryEffects

  lemma {:induction false} WithinDonor(hosts: Hosts, donor: Host)
    ensures EffectiveEnd(hosts, donor) <= donor.range.end
  {
    if hosts != [] {
      WithinDonor(hosts[..|hosts| - 1], donor);
    }
  }

  class SwarmRegistry {
    const totalLayers: int
    var hosts: Hosts

    constructor (totalLayers: int, motherWallet: Option<string>, now: int)
      requires totalLayers >= 1
      ensures this.totalLayers == totalLayers
      ensures hosts == Initial(totalLayers, motherWallet, now) && Inv(hosts, totalLayers)
      ensures |hosts| == 1 && hosts[0].role == Mother && hosts[0].status == Online
      ensures hosts[0].range == Range(0, totalLayers) && hosts[0].layersHosted == totalLayers
      ensures hosts[0].wallet == motherWallet && hosts[0].joinedAt == hosts[0].lastHeartbeat == now
    {
      this.totalLayers := totalLayers;
      hosts := Initial(totalLayers, motherWallet, now);
    }

    ghost predicate Valid() reads this {
      Inv(hosts, totalLayers)
    }

    /** Every layer has an online host. */
    ghost predicate Covers() reads this {
      Complete(hosts, totalLayers)
    }

    /** _effective_donor_range: pending hosts reserve layers at the donor's high end. */
    method EffectiveDonorRange(donor: Host) returns (r: Range)
      ensures r == Range(donor.range.start, EffectiveEnd(hosts, donor))
      ensures r.start == donor.range.start && r.end <= donor.range.end
      ensures forall i :: 0 <= i < |hosts| && hosts[i].status == Pending && hosts[i].donorId == Some(donor.id) ==>
                r.end <= hosts[i].range.start
      ensures || r.end == donor.range.end
              || exists i :: && 0 <= i < |hosts| && hosts[i].status == Pending && hosts[i].donorId == Some(donor.id)
                             && hosts[i].range.start == r.end
    {
      EffectiveEndExactly(hosts, donor);
      var end := donor.range.end;
      for i := 0 to |hosts|
        invariant end == EffectiveEnd(hosts[..i], donor)
      {
        assert hosts[..i + 1][..i] == hosts[..i];
        if hosts[i].status == Pending && hosts[i].donorId == Some(donor.id) {
          if hosts[i].range.start < end {
            end := hosts[i].range.start;
          }
        }
      }
      assert hosts[..|hosts|] == hosts;
      r := Range(donor.range.start, end);
    }

    /** The layers of the first largest online host are free of reservations exactly up to `end`. */
    static ghost predicate FreeUpTo(hosts: Hosts, d: int, end: int) {
      && FirstLargest(hosts, d) && end <= hosts[d].range.end
      && (forall i :: 0 <= i < |hosts| && hosts[i].status == Pending && hosts[i].donorId == Some(hosts[d].id) ==>
            end <= hosts[i].range.start)
      && (end == hosts[d].range.end
          || exists i :: && 0 <= i < |hosts| && hosts[i].status == Pending && hosts[i].donorId == Some(hosts[d].id)
                         && hosts[i].range.start == end)
    }

    /** max_carveable: when nobody is pending, a join with a valid wallet succeeds exactly for 1 .. n
        layers, and for no more than n layers otherwise. */
    method MaxCarveable() returns (n: int)
      requires Valid()
      ensures n >= 0
      ensures forall layers, id, wallet, now :: Registry.Join(hosts, totalLayers, layers, id, wallet, now).1.Ok? <==>
                1 <= layers <= n && ValidWallet(wallet) && First(hosts, (h: Host) => h.status == Pending).None?
      ensures exists d, end :: FreeUpTo(hosts, d, end) && n == if end - hosts[d].range.start > 1
                                                            then end - hosts[d].range.start - 1 else 0
    {
      var first := DonorIsFirstLargest(hosts, totalLayers);
      EffectiveEndExactly(hosts, hosts[first]);
      assert FreeUpTo(hosts, first, EffectiveEnd(hosts, hosts[first]));
      var donor := LargestDonor(hosts);
      if donor.None? {
        return 0;
      }
      var r := EffectiveDonorRange(hosts[donor.value]);
      n := if 0 < r.Length() - 1 then r.Length() - 1 else 0;
      WithinDonor(hosts, hosts[donor.value]);
    }

    lemma JoinIsSafe(layers: int, id: HostId, wallet: string, now: int)
      requires Valid() && IndexOf(hosts, id).None?
      ensures var after := Registry.Join(hosts, totalLayers, layers, id, wallet, now).0;
              Inv(after, totalLayers) && (Covers() ==> Complete(after, totalLayers))
    {
      hide Inv, Complete, Registry.Join;
      JoinKeepsInv(hosts, totalLayers, layers, id, wallet, now);
      if Covers() {
        JoinCoverage(hosts, totalLayers, layers, id, wallet, now);
      }
    }

    method Join(layers: int, id: HostId, wallet: string, now: int) returns (outcome: Outcome)
      requires Valid() && IndexOf(hosts, id).None?
      modifies this
      ensures Valid()
      ensures (hosts, outcome) == Registry.Join(old(hosts), totalLayers, layers, id, wallet, now)
      ensures old(Covers()) ==> Covers()
      ensures outcome.Failed? ==> hosts == old(hosts)
      ensures layers < 1 ==> outcome == Failed(TooFewLayers)
      ensures 1 <= layers && layers >= totalLayers ==> outcome == Failed(TooManyLayers)
      ensures exists d ::
                && FirstLargest(old(hosts), d)
                && (outcome == Ok <==>
                      && 1 <= layers < totalLayers && layers < old(hosts)[d].range.end - old(hosts)[d].range.start
                      && |wallet| > 4 && wallet[..4] == "0.0."
                      && (forall i :: 4 <= i < |wallet| ==> '0' <= wallet[i] <= '9')
                      && forall i :: 0 <= i < |old(hosts)| ==> old(hosts)[i].status != Pending)
                && (outcome == Ok ==>
                      && |hosts| == |old(hosts)| + 1 && hosts[..|old(hosts)|] == old(hosts)
                      && var end := old(hosts)[d].range.end;
                         Joined(hosts[|old(hosts)|], id, Range(end - layers, end), old(hosts)[d], wallet, now))
    {
      hide Complete, Inv, ValidWallet, First, LargestDonor, EffectiveEnd, NewHost, IndexOf, FirstLargest, Joined;
      JoinIsSafe(layers, id, wallet, now);
      ghost var first := JoinExactly(hosts, totalLayers, layers, id, wallet, now);
      if layers < 1 {
        return Failed(TooFewLayers);
      }
      if layers >= totalLayers {
        return Failed(TooManyLayers);
      }
      if !ValidWallet(wallet) {
        return Failed(BadWallet);
      }
      if First(hosts, (h: Host) => h.status == Pending).Some? {
        return Failed(JoinPending);
      }
      var donor := LargestDonor(hosts);
      if donor.None? {
        return Failed(NoDonor);
      }
      var d := hosts[donor.value];
      var free := EffectiveDonorRange(d);
      var maxTake := free.Length() - 1;
      if layers > maxTake {
        return Failed(NotAvailable);
      }
      var mine := Range(free.end - layers, free.end);
      hosts := hosts + [NewHost(id, mine, d.id, Range(free.start, mine.start), wallet, now)];
      return Ok;
    }

    /** The refusal loop of mark_ready: some other reservation on this donor lies outside shrinkTo. */
    method SomeReservationBlocks(host: Host, donor: HostId, shrinkTo: Range) returns (blocked: bool)
      ensures blocked <==> First(hosts, (o: Host) => BlocksShrink(o, host, donor, shrinkTo)).Some?
    {
      for i := 0 to |hosts|
        invariant forall j :: 0 <= j < i ==> !BlocksShrink(hosts[j], host, donor, shrinkTo)
      {
        var other := hosts[i];
        if other.id == host.id || other.status != Pending || other.donorId != Some(donor) {
          continue;
        }
        if !(shrinkTo.start <= other.range.start && other.range.end <= shrinkTo.end) {
          assert BlocksShrink(other, host, donor, shrinkTo);
          return true;
        }
      }
      return false;
    }

    method MarkReady(id: HostId, reloadOk: bool, now: int) returns (outcome: Outcome)
      requires Valid()
      modifies this
      ensures Valid()
      ensures (hosts, outcome) == Registry.MarkReady(old(hosts), id, reloadOk, now)
      ensures old(Covers()) ==> (Covers() <==> (HandsOver(old(hosts), id, reloadOk) ==> PlanStillFits(old(hosts), id)))
      ensures outcome != Ok ==> hosts == old(hosts)
      ensures (forall i :: 0 <= i < |old(hosts)| ==> old(hosts)[i].id != id) ==> outcome == Failed(UnknownHost)
      ensures forall k :: 0 <= k < |old(hosts)| && old(hosts)[k].id == id ==>
                if old(hosts)[k].status == Online then outcome == Ok && hosts == old(hosts)
                else if forall d :: 0 <= d < |old(hosts)| ==> old(hosts)[k].donorId != Some(old(hosts)[d].id)
                then outcome == Failed(MissingPlan)
                else if !reloadOk then outcome == Failed(ReloadFailed)
                else outcome == Ok && HandedOver(old(hosts), k, now, hosts)
    {
      hide Inv, Complete, First, HandedOver, PlanStillFits, HandsOver, BlocksShrink;
      MarkReadyExactly(hosts, totalLayers, id, reloadOk, now);
      MarkReadyKeepsInv(hosts, totalLayers, id, reloadOk, now);
      if Covers() {
        ReadyCoverage(hosts, totalLayers, id, reloadOk, now);
      }
      var at := IndexOf(hosts, id);
      if at.None? {
        return Failed(UnknownHost);
      }
      var host := hosts[at.value];
      if host.status == Online {
        return Ok;
      }
      var donor := if host.donorId.Some? then IndexOf(hosts, host.donorId.value) else None;
      if donor.None? || host.shrinkTo.None? {
        return Failed(MissingPlan);
      }
      var blocked := SomeReservationBlocks(host, host.donorId.value, host.shrinkTo.value);
      if blocked {
        return Failed(ReservedByOther);
      }
      if !reloadOk {
        return Failed(ReloadFailed);
      }
      hosts := hosts[donor.value := SetRange(hosts[donor.value], host.shrinkTo.value)];
      hosts := hosts[at.value := SetRange(hosts[at.value], Assigned(host))
                                 .(status := Online, lastHeartbeat := now, pendingRange := None, shrinkTo := None)];
      return Ok;
    }

    method Heartbeat(id: HostId, now: int) returns (outcome: Outcome)
      modifies this
      ensures old(Valid()) ==> Valid()
      ensures (hosts, outcome) == Registry.Heartbeat(old(hosts), id, now)
      ensures UniqueIds(old(hosts)) ==>
                && (outcome == Ok <==> exists k :: 0 <= k < |old(hosts)| && old(hosts)[k].id == id)
                && |hosts| == |old(hosts)|
                && forall i :: 0 <= i < |hosts| ==>
                     var h := old(hosts)[i];
                     hosts[i] == if h.id != id then h
                                 else if h.status == Offline then h.(lastHeartbeat := now, status := Online)
                                 else h.(lastHeartbeat := now)
    {
      if Inv(hosts, totalLayers) {
        HeartbeatKeepsInv(hosts, totalLayers, id, now);
      }
      var at := IndexOf(hosts, id);
      if at.None? {
        return Failed(UnknownHost);
      }
      hosts := hosts[at.value := hosts[at.value].(lastHeartbeat := now)];
      if hosts[at.value].status == Offline {
        hosts := hosts[at.value := hosts[at.value].(status := Online)];
      }
      assert hosts == Registry.Heartbeat(old(hosts), id, now).0;
      return Ok;
    }

    /** _find_adjacent_donor */
    method FindAdjacentDonor(r: Range) returns (found: Option<nat>)
      ensures found == AdjacentDonor(hosts, r)
    {
      for i := 0 to |hosts|
        invariant forall j :: 0 <= j < i ==> !Touches(hosts[j], r)
      {
        if hosts[i].status != Online {
          continue;
        }
        if hosts[i].range.end == r.start || r.end == hosts[i].range.start {
          return Some(i);
        }
      }
      return None;
    }

    /** _range_covered_by_online */
    method RangeCoveredByOnline(r: Range, skip: HostId) returns (covered: bool)
      ensures covered <==> First(hosts, (h: Host) => Covering(h, skip, r)).Some?
    {
      for i := 0 to |hosts|
        invariant forall j :: 0 <= j < i ==> !Covering(hosts[j], skip, r)
      {
        if hosts[i].id == skip || hosts[i].status != Online {
          continue;
        }
        if hosts[i].range.start <= r.start && r.end <= hosts[i].range.end {
          assert Covering(hosts[i], skip, r);
          return true;
        }
      }
      return false;
    }

    /** The candidate loop of _reclaim_range: the last candidate that can merge, but the mother at once. */
    method PickDonor(r: Range, candidates: seq<nat>) returns (chosen: Option<nat>)
      requires forall i :: 0 <= i < |candidates| ==> candidates[i] < |hosts|
      ensures chosen == ChooseDonor(hosts, r, candidates, None)
      ensures LastTaker(hosts, r, candidates, chosen)
    {
      ChosenIsLastTaker(hosts, r, candidates, None);
      chosen := None;
      var i := 0;
      while i < |candidates|
        invariant 0 <= i <= |candidates|
        invariant chosen.Some? ==> chosen.value < |hosts| && CanMerge(hosts, chosen.value, r).Some?
        invariant ChooseDonor(hosts, r, candidates, None) == ChooseDonor(hosts, r, candidates[i..], chosen)
      {
        assert candidates[i..][0] == candidates[i] && candidates[i..][1..] == candidates[i + 1..];
        var merged := CanMerge(hosts, candidates[i], r);
        if merged.Some? {
          chosen := Some(candidates[i]);
          if hosts[candidates[i]].role == Mother {
            break;  // prefer the mother when it can absorb the range
          }
        }
        i := i + 1;
      }
    }

    /** _reclaim_range */
    method ReclaimRange(r: Range, reloadOk: bool) returns (outcome: Outcome)
      modifies this
      ensures (hosts, outcome) == Reclaim(old(hosts), r, reloadOk)
      ensures old(Valid()) && r.NonEmpty() && Free(old(hosts), r) ==>
                exists d :: Successor(old(hosts), r, d) && TakenOverBy(old(hosts), r, d, reloadOk, hosts, outcome)
    {
      if Valid() && r.NonEmpty() && Free(hosts, r) {
        ghost var d := ReclaimExactly(hosts, totalLayers, r, reloadOk);
      }
      hide Successor, TakenOverBy, Inv, First;
      var candidates := AddCandidate(hosts, [], OnlineMother(hosts));
      var adjacent := FindAdjacentDonor(r);
      candidates := AddCandidate(hosts, candidates, adjacent);
      candidates := AddCandidate(hosts, candidates, LargestDonor(hosts));
      var chosen := PickDonor(r, candidates);
      if chosen.None? {
        return Ok;  // nobody can take the range over; this is only logged
      }
      if !reloadOk {
        return Failed(ReloadFailed);
      }
      hosts := hosts[chosen.value := SetRange(hosts[chosen.value], CanMerge(hosts, chosen.value, r).value)];
      return Ok;
    }

    method Leave(id: HostId, reloadOk: bool) returns (outcome: Outcome)
      requires Valid()
      modifies this
      ensures Valid()
      ensures (hosts, outcome) == Registry.Leave(old(hosts), id, reloadOk)
      ensures forall x :: Known(hosts, x) <==> Known(old(hosts), x) && (x != id || id == MOTHER)
      ensures old(Covers()) ==> (Covers() <==> reloadOk || !LeavesLayersBehind(old(hosts), id))
      ensures (forall i :: 0 <= i < |old(hosts)| ==> old(hosts)[i].id != id) ==>
                hosts == old(hosts) && outcome == Failed(UnknownHost)
      ensures forall k :: 0 <= k < |old(hosts)| && old(hosts)[k].id == id ==>
                Left(old(hosts), k, reloadOk, hosts, outcome)
      ensures old(Covers()) && reloadOk ==>
                forall k :: 0 <= k < |old(hosts)| ==>
                  var host := old(hosts)[k];
                  host.id == id && host.role == Contributor && host.status == Online ==>
                    Succeeded(old(hosts), k, hosts)
    {
      hide Inv, Complete, Left, Succeeded, First, Reclaim, Known, LeavesLayersBehind, Covering;
      LeaveExactly(hosts, totalLayers, id, reloadOk);
      if Covers() && reloadOk {
        forall k | 0 <= k < |hosts| && hosts[k].id == id && hosts[k].role == Contributor && hosts[k].status == Online
          ensures Succeeded(hosts, k, Registry.Leave(hosts, id, reloadOk).0)
        {
          LeaverIsSucceeded(hosts, totalLayers, k);
        }
      }
      LeaveKeepsInv(hosts, totalLayers, id, reloadOk);
      forall x { LeaveRemoves(hosts, totalLayers, id, reloadOk, x); }
      if Covers() {
        LeaveCoverage(hosts, totalLayers, id, reloadOk);
      }
      var at := IndexOf(hosts, id);
      if at.None? {
        return Failed(UnknownHost);
      }
      var host := hosts[at.value];
      if host.role == Mother {
        return Failed(MotherCannotLeave);
      }
      var toReclaim: Option<Range> := None;
      if host.status == Online {
        toReclaim := Some(host.range);
      } else if host.status == Pending {
        var covered := RangeCoveredByOnline(host.range, host.id);
        if !covered {
          toReclaim := Some(host.range);
        }
      }
      hosts := Remove(hosts, at.value);
      outcome := Ok;
      if toReclaim.Some? {
        outcome := ReclaimRange(toReclaim.value, reloadOk);
      }
    }

    /** The loop of both reapers: one leave per listed host, failures logged and skipped. */
    method LeaveEach(ids: seq<HostId>, reloads: HostId -> bool)
      requires Valid()
      modifies this
      ensures Valid()
      ensures hosts == LeaveAll(old(hosts), ids, reloads)
    {
      for i := 0 to |ids|
        invariant Valid()
        invariant LeaveAll(hosts, ids[i..], reloads) == LeaveAll(old(hosts), ids, reloads)
      {
        assert ids[i..][1..] == ids[i + 1..];
        var _ := Leave(ids[i], reloads(ids[i]));
      }
    }

    method ReapStaleHosts(now: int, ttl: int, reloads: HostId -> bool)
      requires Valid()
      modifies this
      ensures Valid()
      ensures hosts == LeaveAll(old(hosts), StaleIds(old(hosts), now, ttl), reloads)
      ensures forall k :: 0 <= k < |old(hosts)| ==>
                (Known(hosts, old(hosts)[k].id) <==> !Stale(old(hosts)[k], now, ttl))
      ensures forall k :: 0 <= k < |old(hosts)| ==>
                (Known(hosts, old(hosts)[k].id) <==>
                   !(old(hosts)[k].role == Contributor && old(hosts)[k].status == Online
                     && now - old(hosts)[k].lastHeartbeat > ttl))
      ensures old(Covers()) ==>
                (Covers() <==> OpenLayers(old(hosts), StaleIds(old(hosts), now, ttl), reloads, {}) == {})
      ensures old(Covers()) && AllReload(StaleIds(old(hosts), now, ttl), reloads) ==> Covers()
    {
      forall k | 0 <= k < |hosts| {
        ReapRemovesExactly(hosts, totalLayers, (h: Host) => Stale(h, now, ttl), reloads, k);
      }
      if Covers() {
        StaleReapCoverage(hosts, totalLayers, now, ttl, reloads);
        LeaveAllCoverageIff(hosts, totalLayers, StaleIds(hosts, now, ttl), reloads);
      }
      LeaveEach(StaleIds(hosts, now, ttl), reloads);
    }

    method ReapStalePendingHosts(now: int, ttl: int, reloads: HostId -> bool)
      requires Valid()
      modifies this
      ensures Valid()
      ensures hosts == LeaveAll(old(hosts), Select(old(hosts), (h: Host) => StalePending(h, now, ttl)), reloads)
      ensures forall k :: 0 <= k < |old(hosts)| ==>
                (Known(hosts, old(hosts)[k].id) <==> !StalePending(old(hosts)[k], now, ttl))
      ensures forall k :: 0 <= k < |old(hosts)| ==>
                (Known(hosts, old(hosts)[k].id) <==>
                   !(old(hosts)[k].role == Contributor && old(hosts)[k].status == Pending
                     && now - old(hosts)[k].joinedAt > ttl))
      ensures old(Covers()) ==> Covers()
    {
      forall k | 0 <= k < |hosts| {
        ReapRemovesExactly(hosts, totalLayers, (h: Host) => StalePending(h, now, ttl), reloads, k);
      }
      if Covers() {
        PendingReapCoverage(hosts, totalLayers, now, ttl, reloads);
      }
      LeaveEach(Select(hosts, (h: Host) => StalePending(h, now, ttl)), reloads);
    }
  }
}

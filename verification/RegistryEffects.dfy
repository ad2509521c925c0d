/** What each registry operation does to each host, in terms of the hosts alone: who gives layers away, who
    takes them over, and which requests are refused. */
module RegistryEffects {
  import opened Options
  import opened Registry
  import opened RegistryInvariant
  import opened RegistryCoverage

  /** The first of the online hosts with the most layers. */
  ghost predicate FirstLargest(hosts: Hosts, d: int) {
    && 0 <= d < |hosts| && hosts[d].status == Online
    && (forall i :: 0 <= i < |hosts| && hosts[i].status == Online ==>
          hosts[i].range.end - hosts[i].range.start <= hosts[d].range.end - hosts[d].range.start)
    && (forall i :: 0 <= i < d && hosts[i].status == Online ==>
          hosts[i].range.end - hosts[i].range.start < hosts[d].range.end - hosts[d].range.start)
  }

  lemma DonorIsFirstLargest(hosts: Hosts, total: int) returns (d: nat)
    requires Inv(hosts, total)
    ensures LargestDonor(hosts) == Some(d) && FirstLargest(hosts, d)
    ensures forall e :: FirstLargest(hosts, e) ==> e == d
  {
    assert hosts[0].status == Online;
    d := LargestDonor(hosts).value;
  }

  // ---- join

  /** The new record of a host that joins and takes the layers mine from the donor. */
  ghost predicate Joined(h: Host, id: HostId, mine: Range, donor: Host, wallet: string, now: int) {
    && h.id == id && h.role == Contributor && h.status == Pending && h.wallet == Some(wallet)
    && h.range == mine && h.layersHosted == mine.end - mine.start && h.joinedAt == h.lastHeartbeat == now
    && h.pendingRange == Some(mine) && h.donorId == Some(donor.id)
    && h.shrinkTo == Some(Range(donor.range.start, mine.start))
  }

  /** When a join is refused, and why; and what it reserves otherwise. */
  lemma JoinExactly(hosts: Hosts, total: int, layers: int, id: HostId, wallet: string, now: int) returns (d: nat)
    requires Inv(hosts, total)
    ensures FirstLargest(hosts, d)
    ensures var (after, outcome) := Join(hosts, total, layers, id, wallet, now);
            && outcome == (
              if layers < 1 then Failed(TooFewLayers)
              else if layers >= total then Failed(TooManyLayers)
              else if !(|wallet| > 4 && wallet[..4] == "0.0."
                        && forall i :: 4 <= i < |wallet| ==> '0' <= wallet[i] <= '9') then Failed(BadWallet)
              else if exists i :: 0 <= i < |hosts| && hosts[i].status == Pending then Failed(JoinPending)
              else if layers >= hosts[d].range.end - hosts[d].range.start then Failed(NotAvailable)
              else Ok)
            && (outcome != Ok ==> after == hosts)
            && (outcome == Ok ==>
                  && |after| == |hosts| + 1 && after[..|hosts|] == hosts
                  && var end := hosts[d].range.end;
                     Joined(after[|hosts|], id, Range(end - layers, end), hosts[d], wallet, now))
  {
    d := DonorIsFirstLargest(hosts, total);
    if First(hosts, (h: Host) => h.status == Pending).None? {
      forall i | 0 <= i < |hosts| ensures hosts[i].status != Pending {
        assert !((h: Host) => h.status == Pending)(hosts[i]);
      }
      NothingReserved(hosts, hosts[d]);
    }
  }

  // ---- what can be carved off

  /** The end of a donor's layers that no pending host has reserved. */
  lemma {:induction false} EffectiveEndExactly(hosts: Hosts, donor: Host)
    ensures var end := EffectiveEnd(hosts, donor);
            && end <= donor.range.end
            && (forall i :: 0 <= i < |hosts| && hosts[i].status == Pending && hosts[i].donorId == Some(donor.id) ==>
                  end <= hosts[i].range.start)
            && (end == donor.range.end
                || exists i :: && 0 <= i < |hosts| && hosts[i].status == Pending && hosts[i].donorId == Some(donor.id)
                               && hosts[i].range.start == end)
  {
    if hosts != [] {
      EffectiveEndExactly(hosts[..|hosts| - 1], donor);
      assert forall i :: 0 <= i < |hosts| - 1 ==> hosts[..|hosts| - 1][i] == hosts[i];
    }
  }

  // ---- mark_ready

  /** What mark_ready does: it answers at once for a host that is online; it fails for a host that it does not
      know, whose donor is gone, or when the donor's reload fails; otherwise the donor shrinks to the plan and
      the host goes online on its layers. Nobody else changes. */
  lemma MarkReadyExactly(hosts: Hosts, total: int, id: HostId, reloadOk: bool, now: int)
    requires Inv(hosts, total)
    ensures var (after, outcome) := MarkReady(hosts, id, reloadOk, now);
            && (outcome != Ok ==> after == hosts)
            && ((forall i :: 0 <= i < |hosts| ==> hosts[i].id != id) ==> outcome == Failed(UnknownHost))
            && forall k :: 0 <= k < |hosts| && hosts[k].id == id ==>
                 if hosts[k].status == Online then outcome == Ok && after == hosts
                 else if forall d :: 0 <= d < |hosts| ==> hosts[k].donorId != Some(hosts[d].id)
                 then outcome == Failed(MissingPlan)
                 else if !reloadOk then outcome == Failed(ReloadFailed)
                 else outcome == Ok && HandedOver(hosts, k, now, after)
  {
    var at := IndexOf(hosts, id);
    if at.Some? {
      IndexIsUnique(hosts, at.value);
      forall k | 0 <= k < |hosts| && hosts[k].id == id ensures k == at.value {
        IndexIsUnique(hosts, k);
      }
      if hosts[at.value].status == Pending {
        HandsOverIffOk(hosts, total, id, reloadOk, now);
        if MarkReady(hosts, id, reloadOk, now).1.Ok? {
          var k, d := ReadyShape(hosts, total, id, now);
          assert HandedOverBy(hosts, k, d, now, MarkReady(hosts, id, reloadOk, now).0);
        }
        MissingDonor(hosts, at.value);
      }
    }
  }

  lemma MissingDonor(hosts: Hosts, k: nat)
    requires k < |hosts| && hosts[k].donorId.Some?
    ensures IndexOf(hosts, hosts[k].donorId.value).None? <==>
              forall d :: 0 <= d < |hosts| ==> hosts[k].donorId != Some(hosts[d].id)
  {
  }

  ghost predicate HandedOverBy(hosts: Hosts, k: int, d: int, now: int, after: Hosts) {
    && 0 <= k < |hosts| && 0 <= d < |hosts| && k != d && |after| == |hosts|
    && hosts[k].donorId == Some(hosts[d].id) && hosts[k].shrinkTo.Some?
    && (var cut := hosts[k].shrinkTo.value;
        after[d] == hosts[d].(range := cut, layersHosted := cut.end - cut.start))
    && after[k] == hosts[k].(status := Online, lastHeartbeat := now, pendingRange := None, shrinkTo := None)
    && forall i :: 0 <= i < |hosts| && i != k && i != d ==> after[i] == hosts[i]
  }

  ghost predicate HandedOver(hosts: Hosts, k: int, now: int, after: Hosts) {
    exists d :: HandedOverBy(hosts, k, d, now, after)
  }

  // ---- leave

  /** The smallest range around both. */
  ghost predicate IsHull(h: Range, a: Range, b: Range) {
    && h.start <= a.start && h.start <= b.start && (h.start == a.start || h.start == b.start)
    && a.end <= h.end && b.end <= h.end && (h.end == a.end || h.end == b.end)
  }

  /** Online host d can take r over: no other online host is on its layers, on r, or in between. */
  ghost predicate CanTake(hosts: Hosts, d: int, r: Range) {
    && 0 <= d < |hosts| && hosts[d].status == Online
    && forall i :: 0 <= i < |hosts| && i != d && hosts[i].status == Online ==>
         || (hosts[i].range.end <= hosts[d].range.start && hosts[i].range.end <= r.start)
         || (hosts[d].range.end <= hosts[i].range.start && r.end <= hosts[i].range.start)
  }

  ghost predicate Borders(h: Host, r: Range) {
    h.status == Online && (h.range.end == r.start || r.end == h.range.start)
  }

  ghost predicate FirstBordering(hosts: Hosts, r: Range, d: int) {
    0 <= d < |hosts| && Borders(hosts[d], r) && forall i :: 0 <= i < d ==> !Borders(hosts[i], r)
  }

  /** _can_merge_ranges, for a range that is free: it succeeds exactly if the host can take the range over, and
      the merged range is the hull. */
  lemma CanMergeExactly(hosts: Hosts, total: int, d: nat, r: Range)
    requires Inv(hosts, total) && d < |hosts| && hosts[d].status == Online && r.NonEmpty() && Free(hosts, r)
    ensures CanMerge(hosts, d, r).Some? <==> CanTake(hosts, d, r)
    ensures CanMerge(hosts, d, r).Some? ==> IsHull(CanMerge(hosts, d, r).value, hosts[d].range, r)
  {
    var donor := hosts[d];
    assert r.Disjoint(donor.range);
    forall i | 0 <= i < |hosts| && i != d && hosts[i].status == Online
      ensures hosts[i].id != donor.id && hosts[i].range.Disjoint(donor.range) && r.Disjoint(hosts[i].range)
    {
      OnlineApart(hosts, i, d);
    }
    if donor.range.end != r.start && r.end != donor.range.start {
      var blocks := (h: Host) => Conflicts(h, donor.id, Hull(donor.range, r));
      if First(hosts, blocks).Some? {
        assert blocks(hosts[First(hosts, blocks).value]);
      } else {
        forall i | 0 <= i < |hosts| && i != d && hosts[i].status == Online
          ensures !Conflicts(hosts[i], donor.id, Hull(donor.range, r))
        {
          assert !blocks(hosts[i]);
        }
      }
    }
  }

  /** Who takes a free range over: the mother if she can; otherwise the first largest online host if it can;
      otherwise the first host that borders on the range, if there is one. */
  ghost predicate Successor(hosts: Hosts, r: Range, d: Option<nat>) {
    if CanTake(hosts, 0, r) then d == Some(0)
    else if exists l: nat :: FirstLargest(hosts, l) && CanTake(hosts, l, r)
    then d.Some? && FirstLargest(hosts, d.value)
    else if d.Some? then FirstBordering(hosts, r, d.value)
    else forall i :: 0 <= i < |hosts| ==> !Borders(hosts[i], r)
  }

  lemma LastMergeable(hosts: Hosts, r: Range, a: nat, rest: seq<nat>, chosen: Option<nat>)
    requires a < |hosts| && forall i :: 0 <= i < |rest| ==> rest[i] < |hosts|
    requires chosen.Some? ==> chosen.value < |hosts| && CanMerge(hosts, chosen.value, r).Some?
    ensures ChooseDonor(hosts, r, [a] + rest, chosen)
         == if CanMerge(hosts, a, r).None? then ChooseDonor(hosts, r, rest, chosen)
            else if hosts[a].role == Mother then Some(a) else ChooseDonor(hosts, r, rest, Some(a))
  {
    assert ([a] + rest)[1..] == rest;
  }

  /** The candidates behind the mother. */
  function BehindMother(adjacent: Option<nat>, l: nat): seq<nat> {
    (if adjacent.Some? && adjacent.value != 0 then [adjacent.value] else [])
    + (if l != 0 && adjacent != Some(l) then [l] else [])
  }

  lemma TwoCandidates(hosts: Hosts, adjacent: Option<nat>)
    requires 0 < |hosts| && (adjacent.Some? ==> adjacent.value < |hosts|)
    ensures AddCandidate(hosts, AddCandidate(hosts, [], Some(0)), adjacent) == [0] + BehindMother(adjacent, 0)
  {
    assert AddCandidate(hosts, [], Some(0)) == [0];
  }

  lemma ThirdCandidate(hosts: Hosts, adjacent: Option<nat>, l: nat)
    requires 0 < |hosts| && l < |hosts| && (adjacent.Some? ==> adjacent.value < |hosts|)
    ensures AddCandidate(hosts, [0] + BehindMother(adjacent, 0), Some(l)) == [0] + BehindMother(adjacent, l)
  {
    var two := [0] + BehindMother(adjacent, 0);
    assert l in two <==> l == 0 || adjacent == Some(l);
    assert two + [l] == [0] + (BehindMother(adjacent, 0) + [l]);
  }

  lemma CandidateList(hosts: Hosts, r: Range, l: nat, adjacent: Option<nat>)
    requires OnlineMother(hosts) == Some(0) && LargestDonor(hosts) == Some(l)
    requires adjacent == AdjacentDonor(hosts, r)
    ensures Candidates(hosts, r) == [0] + BehindMother(adjacent, l)
  {
    hide AdjacentDonor, LargestDonor, OnlineMother, BehindMother, AddCandidate, Touches;
    TwoCandidates(hosts, adjacent);
    ThirdCandidate(hosts, adjacent, l);
  }

  lemma BehindMotherKnown(hosts: Hosts, l: nat, adjacent: Option<nat>)
    requires l < |hosts| && (adjacent.Some? ==> adjacent.value < |hosts|)
    ensures forall i :: 0 <= i < |BehindMother(adjacent, l)| ==> BehindMother(adjacent, l)[i] < |hosts|
  {
  }

  /** The last candidate that can merge wins, but the mother at once. */
  lemma CandidateOrder(hosts: Hosts, r: Range, l: nat, adjacent: Option<nat>)
    requires MotherFirst(hosts) && l < |hosts|
    requires OnlineMother(hosts) == Some(0) && LargestDonor(hosts) == Some(l)
    requires adjacent == AdjacentDonor(hosts, r)
    requires adjacent.Some? ==> CanMerge(hosts, adjacent.value, r).Some?
    ensures ChooseDonor(hosts, r, Candidates(hosts, r), None)
         == if CanMerge(hosts, 0, r).Some? then Some(0) else if CanMerge(hosts, l, r).Some? then Some(l) else adjacent
  {
    hide CanMerge, AdjacentDonor, LargestDonor, OnlineMother, Candidates, ChooseDonor;
    CandidateList(hosts, r, l, adjacent);
    BehindMotherKnown(hosts, l, adjacent);
    LastMergeable(hosts, r, 0, BehindMother(adjacent, l), None);
    if CanMerge(hosts, 0, r).None? {
      var tail: seq<nat> := if l != 0 && adjacent != Some(l) then [l] else [];
      if adjacent.Some? {
        assert BehindMother(adjacent, l) == [adjacent.value] + tail;
        LastMergeable(hosts, r, adjacent.value, tail, None);
      } else {
        assert BehindMother(adjacent, l) == tail;
      }
      NothingLeft(hosts, r, adjacent);
      if tail != [] {
        assert tail == [l] + [];
        LastMergeable(hosts, r, l, [], adjacent);
        if CanMerge(hosts, l, r).Some? {
          NothingLeft(hosts, r, Some(l));
        }
      }
    }
  }

  lemma NothingLeft(hosts: Hosts, r: Range, chosen: Option<nat>)
    requires chosen.Some? ==> chosen.value < |hosts| && CanMerge(hosts, chosen.value, r).Some?
    ensures ChooseDonor(hosts, r, [], chosen) == chosen
  {
  }

  lemma ChosenExactly(hosts: Hosts, total: int, r: Range)
    requires Inv(hosts, total) && r.NonEmpty() && Free(hosts, r)
    ensures Successor(hosts, r, ChooseDonor(hosts, r, Candidates(hosts, r), None))
  {
    hide Candidates, ChooseDonor, CanMerge, CanTake, FirstLargest, AdjacentDonor, LargestDonor;
    var l := DonorIsFirstLargest(hosts, total);
    MotherOnline(hosts, total);
    CanMergeExactly(hosts, total, 0, r);
    CanMergeExactly(hosts, total, l, r);
    var adjacent := AdjacentDonor(hosts, r);
    FirstTouching(hosts, r);
    if adjacent.Some? {
      CanMergeBordering(hosts, adjacent.value, r);
    }
    CandidateOrder(hosts, r, l, adjacent);
  }

  lemma MotherOnline(hosts: Hosts, total: int)
    requires Inv(hosts, total)
    ensures hosts != [] && hosts[0].status == Online && MotherFirst(hosts) && OnlineMother(hosts) == Some(0)
  {
    IndexIsUnique(hosts, 0);
  }

  lemma FirstTouching(hosts: Hosts, r: Range)
    ensures var adjacent := AdjacentDonor(hosts, r);
            if adjacent.Some? then FirstBordering(hosts, r, adjacent.value)
            else forall i :: 0 <= i < |hosts| ==> !Borders(hosts[i], r)
  {
    hide AdjacentDonor;
  }

  lemma CanMergeBordering(hosts: Hosts, d: nat, r: Range)
    requires d < |hosts| && Borders(hosts[d], r)
    ensures CanMerge(hosts, d, r).Some?
  {
  }

  /** What becomes of a range that somebody should take over. */
  ghost predicate TakenOverBy(rest: Hosts, r: Range, d: Option<nat>, reloadOk: bool, after: Hosts, outcome: Outcome) {
    if d.None? then after == rest && outcome == Ok
    else if !reloadOk then after == rest && outcome == Failed(ReloadFailed)
    else outcome == Ok && d.value < |rest| && Widened(rest, d.value, r, after)
  }

  /** Host d grows to the hull of its range and r, and nobody else changes. */
  ghost predicate Widened(hosts: Hosts, d: int, r: Range, after: Hosts) {
    && 0 <= d < |hosts| && |after| == |hosts|
    && IsHull(after[d].range, hosts[d].range, r)
    && after[d] == hosts[d].(range := after[d].range, layersHosted := after[d].range.end - after[d].range.start)
    && forall i :: 0 <= i < |hosts| && i != d ==> after[i] == hosts[i]
  }

  lemma ReclaimExactly(hosts: Hosts, total: int, r: Range, reloadOk: bool) returns (d: Option<nat>)
    requires Inv(hosts, total) && r.NonEmpty() && Free(hosts, r)
    ensures Successor(hosts, r, d)
    ensures var (after, outcome) := Reclaim(hosts, r, reloadOk); TakenOverBy(hosts, r, d, reloadOk, after, outcome)
  {
    hide Inv, Candidates, ChooseDonor, CanMerge, Successor;
    d := ChooseDonor(hosts, r, Candidates(hosts, r), None);
    ChosenExactly(hosts, total, r);
    DonorIsOnline(hosts, r);
    if d.Some? {
      CanMergeExactly(hosts, total, d.value, r);
    }
  }

  /** A departure, host by host: it is refused for an unknown host and for the mother. The host is removed; the
      layers of an online host, or those of a pending host that no online host holds, go to their successor if
      there is one and its reload works. Nobody else changes. */
  lemma LeaveExactly(hosts: Hosts, total: int, id: HostId, reloadOk: bool)
    requires Inv(hosts, total)
    ensures var (after, outcome) := Leave(hosts, id, reloadOk);
            && ((forall i :: 0 <= i < |hosts| ==> hosts[i].id != id) ==>
                  after == hosts && outcome == Failed(UnknownHost))
            && forall k :: 0 <= k < |hosts| && hosts[k].id == id ==> Left(hosts, k, reloadOk, after, outcome)
  {
    var at := IndexOf(hosts, id);
    if at.Some? {
      forall k | 0 <= k < |hosts| && hosts[k].id == id ensures k == at.value {
        IndexIsUnique(hosts, k);
      }
      LeaveAt(hosts, total, at.value, reloadOk);
    }
  }

  ghost predicate Left(hosts: Hosts, k: int, reloadOk: bool, after: Hosts, outcome: Outcome) {
    0 <= k < |hosts| &&
    var host, rest := hosts[k], hosts[..k] + hosts[k + 1..];
    if host.role == Mother then after == hosts && outcome == Failed(MotherCannotLeave)
    else if host.status == Pending && exists i :: && 0 <= i < |hosts| && hosts[i].status == Online
                                                  && hosts[i].range.start <= host.range.start
                                                  && host.range.end <= hosts[i].range.end
    then after == rest && outcome == Ok
    else exists d :: Successor(rest, host.range, d) && TakenOverBy(rest, host.range, d, reloadOk, after, outcome)
  }

  lemma CoveredByAnother(hosts: Hosts, k: nat)
    requires UniqueIds(hosts) && k < |hosts| && hosts[k].status == Pending
    ensures First(hosts, (h: Host) => Covering(h, hosts[k].id, hosts[k].range)).Some? <==>
              exists i :: && 0 <= i < |hosts| && hosts[i].status == Online
                          && hosts[i].range.start <= hosts[k].range.start && hosts[k].range.end <= hosts[i].range.end
  {
    hide First, Covering;
    var covering := (h: Host) => Covering(h, hosts[k].id, hosts[k].range);
    forall i | 0 <= i < |hosts|
      ensures covering(hosts[i]) <==>
                && hosts[i].status == Online
                && hosts[i].range.start <= hosts[k].range.start && hosts[k].range.end <= hosts[i].range.end
    {
      CoveringAt(hosts, k, i);
    }
    if First(hosts, covering).Some? {
      assert covering(hosts[First(hosts, covering).value]);
    }
  }

  lemma CoveringAt(hosts: Hosts, k: nat, i: nat)
    requires UniqueIds(hosts) && k < |hosts| && hosts[k].status == Pending && i < |hosts|
    ensures Covering(hosts[i], hosts[k].id, hosts[k].range) <==>
              && hosts[i].status == Online
              && hosts[i].range.start <= hosts[k].range.start && hosts[k].range.end <= hosts[i].range.end
  {
  }

  lemma LeaveAt(hosts: Hosts, total: int, k: nat, reloadOk: bool)
    requires Inv(hosts, total) && k < |hosts|
    ensures var (after, outcome) := Leave(hosts, hosts[k].id, reloadOk); Left(hosts, k, reloadOk, after, outcome)
  {
    hide Inv, Successor, TakenOverBy, Reclaim, First, Covering;
    InvParts(hosts, total, k);
    var host := hosts[k];
    if host.role != Mother {
      var rest := Remove(hosts, k);
      RemoveKeepsInv(hosts, total, k);
      PendingOrOnline(hosts, total, k);
      if host.status == Pending {
        CoveredByAnother(hosts, k);
      }
      if NeedsReclaim(hosts, host) {
        NotOwnedIsFree(hosts, total, k);
        var d := ReclaimExactly(rest, total, host.range, reloadOk);
      }
    }
  }

  lemma PendingOrOnline(hosts: Hosts, total: int, k: nat)
    requires Inv(hosts, total) && k < |hosts|
    ensures UniqueIds(hosts) && (hosts[k].status == Pending || hosts[k].status == Online)
  {
  }

  lemma NotOwnedIsFree(hosts: Hosts, total: int, k: nat)
    requires Inv(hosts, total) && 0 < k < |hosts| && NeedsReclaim(hosts, hosts[k])
    ensures Free(Remove(hosts, k), hosts[k].range) && hosts[k].range.NonEmpty()
  {
    RemoveKeepsInv(hosts, total, k);
    if hosts[k].status == Pending {
      CoveredByAnother(hosts, k);
      assert !Owned(hosts, hosts[k].range);
    }
  }

  // ---- a departure from a registry that covers all layers

  /** Who takes the layers of a leaver over when all layers were covered: the mother if her range ends where the
      leaver's begins; otherwise the first largest host that remains if it borders on the leaver's range;
      otherwise the first host that does. */
  ghost predicate NextOwner(rest: Hosts, r: Range, d: int) {
    if rest != [] && rest[0].range.end == r.start then d == 0
    else if exists l :: FirstLargest(rest, l) && Borders(rest[l], r) then FirstLargest(rest, d)
    else FirstBordering(rest, r, d)
  }

  /** In a registry that covers all layers, the layers of a leaver whose successor reloads go to exactly one
      host, which grows by them; every other record stays as it is. */
  lemma LeaverSucceeded(hosts: Hosts, total: int, k: nat) returns (d: nat)
    requires Inv(hosts, total) && Complete(hosts, total)
    requires k < |hosts| && hosts[k].role == Contributor && hosts[k].status == Online
    ensures var rest, r := hosts[..k] + hosts[k + 1..], hosts[k].range;
            && Leave(hosts, hosts[k].id, true).1 == Ok
            && NextOwner(rest, r, d) && Borders(rest[d], r) && Widened(rest, d, r, Leave(hosts, hosts[k].id, true).0)
  {
    hide Inv, Complete, OneHole, Successor, NextOwner, Widened, Reclaim;
    InvParts(hosts, total, k);
    LeaverLeavesOneHole(hosts, total, k);
    var rest, r := Remove(hosts, k), hosts[k].range;
    HoleParts(rest, total, r);
    var chosen := ReclaimExactly(rest, total, r, true);
    SuccessorIsNextOwner(rest, total, r, chosen);
    d := chosen.value;
  }

  lemma InvParts(hosts: Hosts, total: int, k: nat)
    requires Inv(hosts, total) && k < |hosts|
    ensures IndexOf(hosts, hosts[k].id) == Some(k) && (hosts[k].role == Mother <==> k == 0)
  {
    IndexIsUnique(hosts, k);
  }

  lemma HoleParts(hosts: Hosts, total: int, r: Range)
    requires OneHole(hosts, total, r)
    ensures r.NonEmpty() && Free(hosts, r)
  {
  }

  lemma SuccessorIsNextOwner(rest: Hosts, total: int, r: Range, d: Option<nat>)
    requires Inv(rest, total) && OneHole(rest, total, r) && Successor(rest, r, d)
    ensures d.Some? && d.value < |rest| && Borders(rest[d.value], r) && NextOwner(rest, r, d.value)
  {
    HoleHasNeighbour(rest, total, r);
    var n := AdjacentDonor(rest, r).value;
    MotherBorders(rest, total, r);
    forall i: nat | i < |rest| && rest[i].status == Online ensures CanTake(rest, i, r) <==> Borders(rest[i], r) {
      BordersIffCanTake(rest, total, i, r);
    }
    hide Inv, OneHole, CanTake;
    assert Borders(rest[n], r);
  }

  lemma MotherBorders(rest: Hosts, total: int, r: Range)
    requires Inv(rest, total) && OneHole(rest, total, r)
    ensures rest != [] && rest[0].status == Online
    ensures Borders(rest[0], r) <==> rest[0].range.end == r.start
  {
  }

  /** With one hole, only a bordering host can take it over, and every bordering host can. */
  lemma BordersIffCanTake(hosts: Hosts, total: int, i: nat, r: Range)
    requires Inv(hosts, total) && OneHole(hosts, total, r) && i < |hosts| && hosts[i].status == Online
    ensures CanTake(hosts, i, r) <==> Borders(hosts[i], r)
  {
    CanMergeExactly(hosts, total, i, r);
    if CanMerge(hosts, i, r).Some? {
      MergeFillsExactly(hosts, total, i, r);
    }
  }

  ghost predicate Succeeded(hosts: Hosts, k: int, after: Hosts)
    requires 0 <= k < |hosts|
  {
    var rest, r := hosts[..k] + hosts[k + 1..], hosts[k].range;
    exists d :: NextOwner(rest, r, d) && 0 <= d < |rest| && Borders(rest[d], r) && Widened(rest, d, r, after)
  }

  lemma LeaverIsSucceeded(hosts: Hosts, total: int, k: nat)
    requires Inv(hosts, total) && Complete(hosts, total)
    requires k < |hosts| && hosts[k].role == Contributor && hosts[k].status == Online
    ensures Succeeded(hosts, k, Leave(hosts, hosts[k].id, true).0)
  {
    hide Inv, Complete, Leave, NextOwner;
    var d := LeaverSucceeded(hosts, total, k);
  }

  // ---- the candidates in order

  /** The first candidate that is the mother and can merge; if there is none, the last one that can merge. */
  ghost predicate LastTaker(hosts: Hosts, r: Range, candidates: seq<nat>, chosen: Option<nat>)
    requires forall i :: 0 <= i < |candidates| ==> candidates[i] < |hosts|
  {
    if chosen.None? then forall i :: 0 <= i < |candidates| ==> CanMerge(hosts, candidates[i], r).None?
    else
      exists i :: && 0 <= i < |candidates| && candidates[i] == chosen.value && CanMerge(hosts, candidates[i], r).Some?
                  && (forall j :: 0 <= j < i && hosts[candidates[j]].role == Mother ==>
                        CanMerge(hosts, candidates[j], r).None?)
                  && (hosts[chosen.value].role == Mother
                      || forall j :: i < j < |candidates| ==> CanMerge(hosts, candidates[j], r).None?)
  }

  lemma {:induction false} ChosenIsLastTaker(hosts: Hosts, r: Range, candidates: seq<nat>, chosen: Option<nat>)
    requires forall i :: 0 <= i < |candidates| ==> candidates[i] < |hosts|
    requires chosen.Some? ==> chosen.value < |hosts| && CanMerge(hosts, chosen.value, r).Some?
    ensures var c := ChooseDonor(hosts, r, candidates, chosen);
            || (c == chosen && forall i :: 0 <= i < |candidates| ==> CanMerge(hosts, candidates[i], r).None?)
            || (c.Some? && LastTaker(hosts, r, candidates, c))
    decreases |candidates|
  {
    hide CanMerge;
    if candidates != [] {
      var rest := candidates[1..];
      assert forall i :: 0 <= i < |rest| ==> rest[i] == candidates[i + 1];
      var merges := CanMerge(hosts, candidates[0], r).Some?;
      var next := if merges then Some(candidates[0]) else chosen;
      if !(merges && hosts[candidates[0]].role == Mother) {
        ChosenIsLastTaker(hosts, r, rest, next);
        var c := ChooseDonor(hosts, r, rest, next);
        assert c == ChooseDonor(hosts, r, candidates, chosen);
        if c.Some? && LastTaker(hosts, r, rest, c) {
          var i :| && 0 <= i < |rest| && rest[i] == c.value && CanMerge(hosts, rest[i], r).Some?
                   && (forall j :: 0 <= j < i && hosts[rest[j]].role == Mother ==> CanMerge(hosts, rest[j], r).None?)
                   && (hosts[c.value].role == Mother
                       || forall j :: i < j < |rest| ==> CanMerge(hosts, rest[j], r).None?);
          assert candidates[i + 1] == c.value;
          forall j | 0 <= j < i + 1 && hosts[candidates[j]].role == Mother
            ensures CanMerge(hosts, candidates[j], r).None?
          {
            if j > 0 {
              assert candidates[j] == rest[j - 1];
            }
          }
          if hosts[c.value].role != Mother {
            forall j | i + 1 < j < |candidates| ensures CanMerge(hosts, candidates[j], r).None? {
              assert candidates[j] == rest[j - 1];
            }
          }
          assert LastTaker(hosts, r, candidates, c);
        } else if merges {
          forall j | 0 < j < |candidates| ensures CanMerge(hosts, candidates[j], r).None? {
            assert candidates[j] == rest[j - 1];
          }
          assert candidates[0] == c.value;
        } else {
          forall j | 0 <= j < |candidates| ensures CanMerge(hosts, candidates[j], r).None? {
            if j > 0 {
              assert candidates[j] == rest[j - 1];
            }
          }
        }
      }
    }
  }

  // ---- reaping

  /** ids are those of the hosts at these places, in order, and these are the places where p holds. */
  ghost predicate ListedAt(hosts: Hosts, p: Host -> bool, ids: seq<HostId>, at: seq<nat>) {
    && |at| == |ids|
    && (forall i :: 0 <= i < |at| ==> at[i] < |hosts| && p(hosts[at[i]]) && ids[i] == hosts[at[i]].id)
    && (forall i, j :: 0 <= i < j < |at| ==> at[i] < at[j])
    && (forall k: nat :: k < |hosts| && p(hosts[k]) ==> k in at)
  }

  lemma ListOneMore(front: Hosts, last: Host, p: Host -> bool, ids: seq<HostId>, at: seq<nat>)
    requires ListedAt(front, p, ids, at)
    ensures if p(last) then ListedAt(front + [last], p, ids + [last.id], at + [|front|])
            else ListedAt(front + [last], p, ids, at)
  {
    var all, longer := front + [last], at + [|front|];
    assert longer[|at|] == |front|;
    assert forall k: nat :: k in at ==> k in longer;
    assert forall k :: 0 <= k < |front| ==> all[k] == front[k];
  }

  /** The listed hosts come in the order of the registry, each exactly once. */
  lemma {:induction false} SelectKeepsOrder(hosts: Hosts, p: Host -> bool) returns (at: seq<nat>)
    ensures ListedAt(hosts, p, Select(hosts, p), at)
  {
    at := [];
    if hosts != [] {
      var front, last := hosts[..|hosts| - 1], hosts[|hosts| - 1];
      var before := SelectKeepsOrder(front, p);
      ListOneMore(front, last, p, Select(front, p), before);
      hide ListedAt;
      assert front + [last] == hosts;
      at := if p(last) then before + [|front|] else before;
      assert p(last) ==> Select(hosts, p) == Select(front, p) + [last.id];
      assert !p(last) ==> Select(hosts, p) == Select(front, p);
    }
  }
}

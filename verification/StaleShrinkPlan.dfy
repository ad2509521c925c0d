/** Concrete runs. The main one is a run in which every reload works and yet a layer ends up with no host: a
    neighbour leaves between a join and its mark_ready, its layers are merged onto the donor, and the shrink
    plan fixed at join time drops them. The other shows that the order of departures decides what a failing
    reload loses. */
module StaleShrinkPlan {
  import opened Options
  import opened Registry
  import opened RegistryInvariant
  import opened RegistryCoverage

  const WALLET: string := "0.0.5"

  /** Joining one layer on a registry whose first, largest donor is the mother. */
  lemma JoinFromMother(hosts: Hosts, total: int, id: HostId)
    requires Inv(hosts, total) && IndexOf(hosts, id).None? && total >= 2
    requires forall i :: 0 <= i < |hosts| ==> hosts[i].status == Online
    requires forall i :: 0 < i < |hosts| ==> hosts[i].layersHosted < hosts[0].layersHosted
    requires hosts[0].range.end >= 2
    ensures var cut := hosts[0].range.end - 1;
            Join(hosts, total, 1, id, WALLET, 0)
            == (hosts + [NewHost(id, Range(cut, cut + 1), MOTHER, Range(0, cut), WALLET, 0)], Ok)
  {
    assert LargestDonor(hosts) == Some(0);
    NothingReserved(hosts, hosts[0]);
  }

  /** The pending host at position k becomes ready; its donor is the mother. */
  lemma ReadyFromMother(hosts: Hosts, total: int, k: nat)
    requires Inv(hosts, total) && 0 < k < |hosts| && hosts[k].status == Pending
    requires hosts[k].donorId == Some(MOTHER)
    ensures HandsOver(hosts, hosts[k].id, true)
    ensures var after := MarkReady(hosts, hosts[k].id, true, 0).0;
            && |after| == |hosts|
            && after[0] == SetRange(hosts[0], hosts[k].shrinkTo.value)
            && after[k] == hosts[k].(status := Online, lastHeartbeat := 0, pendingRange := None, shrinkTo := None)
            && forall i :: 0 < i < |hosts| && i != k ==> after[i] == hosts[i]
  {
    IndexIsUnique(hosts, k);
    IndexIsUnique(hosts, 0);
    assert PlanMatches(hosts, hosts[k]);
    var at, d := ReadyShape(hosts, total, hosts[k].id, 0);
  }

  /** The host at position k leaves; its layers go to the mother, on whose range they border. */
  lemma LeaveToMother(hosts: Hosts, total: int, k: nat)
    requires Inv(hosts, total) && 0 < k < |hosts| && hosts[k].status == Online
    requires hosts[0].range.end == hosts[k].range.start
    ensures Leave(hosts, hosts[k].id, true).0
         == Remove(hosts, k)[0 := SetRange(hosts[0], Range(0, hosts[k].range.end))]
  {
    IndexIsUnique(hosts, k);
    var rest := Remove(hosts, k);
    RemoveKeepsInv(hosts, total, k);
    IndexIsUnique(rest, 0);
    var c := Candidates(rest, hosts[k].range);
    assert c[0] == 0;
    assert ChooseDonor(rest, hosts[k].range, c, None) == Some(0);
  }

  ghost predicate ReloadWorks(step: Step) {
    match step
    case ReadyStep(_, ok, _) => ok
    case LeaveStep(_, ok) => ok
    case _ => true
  }

  function MotherHost(end: int): Host { SetRange(Initial(4, None, 0)[0], Range(0, end)) }

  function Contributing(id: HostId, layer: int): Host {
    NewHost(id, Range(layer, layer + 1), MOTHER, Range(0, layer), WALLET, 0)
  }

  function Serving(id: HostId, layer: int): Host {
    Contributing(id, layer).(status := Online, pendingRange := None, shrinkTo := None)
  }

  /** The registry of four layers through the run. */
  function StateAt(k: nat): Hosts {
    match k
    case 0 => [MotherHost(4)]
    case 1 => [MotherHost(4), Contributing("a", 3)]
    case 2 => [MotherHost(3), Serving("a", 3)]
    case 3 => [MotherHost(3), Serving("a", 3), Contributing("b", 2)]
    case 4 => [MotherHost(4), Contributing("b", 2)]
    case _ => [MotherHost(2), Serving("b", 2)]
  }

  function StepAt(k: nat): Step {
    match k
    case 0 => JoinStep(1, "a", WALLET, 0)
    case 1 => ReadyStep("a", true, 0)
    case 2 => JoinStep(1, "b", WALLET, 0)
    case 3 => LeaveStep("a", true)
    case _ => ReadyStep("b", true, 0)
  }

  lemma JoinStepAt(k: nat)
    requires k == 0 || k == 2
    requires Inv(StateAt(k), 4)
    ensures Allowed(StateAt(k), StepAt(k)) && Apply(StateAt(k), 4, StepAt(k)) == StateAt(k + 1)
  {
    hide Join, LargestDonor, ValidWallet;
    if k == 0 {
      JoinFromMother(StateAt(0), 4, StepAt(0).id);
    } else {
      JoinFromMother(StateAt(2), 4, StepAt(2).id);
    }
  }

  lemma ReadyStepAt(k: nat)
    requires k == 1 || k == 4
    requires Inv(StateAt(k), 4)
    ensures Apply(StateAt(k), 4, StepAt(k)) == StateAt(k + 1)
  {
    ReadyFromMother(StateAt(k), 4, 1);
  }

  lemma LeaveOfA(hosts: Hosts)
    requires Inv(hosts, 4) && |hosts| == 3
    requires hosts[0].range == Range(0, 3) && hosts[1].range == Range(3, 4)
    requires hosts[1].id == "a" && hosts[1].status == Online
    ensures Leave(hosts, "a", true).0 == [SetRange(hosts[0], Range(0, 4)), hosts[2]]
  {
    LeaveToMother(hosts, 4, 1);
    assert Remove(hosts, 1) == [hosts[0], hosts[2]];
  }

  lemma LeaveStepAt()
    requires Inv(StateAt(3), 4)
    ensures Apply(StateAt(3), 4, StepAt(3)) == StateAt(4)
  {
    LeaveOfA(StateAt(3));
  }

  lemma StepHolds(k: nat)
    requires k < 5
    ensures Inv(StateAt(k), 4) && Inv(StateAt(k + 1), 4)
    ensures Allowed(StateAt(k), StepAt(k)) && StateAt(k + 1) == Apply(StateAt(k), 4, StepAt(k))
  {
    if k == 0 {
      assert Inv(StateAt(0), 4);
    } else {
      StepHolds(k - 1);
    }
    if k == 0 || k == 2 {
      JoinStepAt(k);
    } else if k == 3 {
      LeaveStepAt();
    } else {
      ReadyStepAt(k);
    }
    StepKeepsInv(StateAt(k), 4, StepAt(k));
  }

  lemma EarlierStatesComplete(k: nat)
    requires k < 5
    ensures Complete(StateAt(k), 4)
  {
    var s := StateAt(k);
    forall layer | 0 <= layer < 4 ensures Covered(s, layer) {
      assert if s[0].range.Contains(layer) then true else s[1].range.Contains(layer);
    }
  }

  /** Four layers, joins of one layer each by hosts a and b, where a leaves while b is pending: layer 3
      is lost although no reload fails. */
  lemma LayerLostWithoutAnyFailure() returns (states: seq<Hosts>, steps: seq<Step>)
    ensures Run(states, steps, 4) && |steps| == 5
    ensures forall i :: 0 <= i < 5 ==> ReloadWorks(steps[i])
    ensures forall i :: 0 <= i < 5 ==> Complete(states[i], 4)
    ensures !Covered(states[5], 3)
  {
    states := seq(6, k requires 0 <= k < 6 => StateAt(k));
    steps := seq(5, k requires 0 <= k < 5 => StepAt(k));
    assert states[0] == Initial(4, None, 0);
    forall i | 0 <= i < 5
      ensures Allowed(states[i], steps[i]) && states[i + 1] == Apply(states[i], 4, steps[i])
      ensures Complete(states[i], 4)
    {
      StepHolds(i);
      EarlierStatesComplete(i);
    }
  }

  // ---- reaping two stale hosts

  /** Two departures on top of the mother, where the first reload fails and the second works. If the hosts
      leave from left to right, the second departure carries the hole along and nothing is lost; from right
      to left, layer 3 is. */
  lemma HoleCarriedAlong(hosts: Hosts)
    requires Inv(hosts, 4) && |hosts| == 3 && hosts[0].range == Range(0, 2)
    requires hosts[1].id == "a" && hosts[1].status == Online && hosts[1].range == Range(2, 3)
    requires hosts[2].id == "b" && hosts[2].status == Online && hosts[2].range == Range(3, 4)
    ensures Complete(LeaveAll(hosts, ["a", "b"], (id: HostId) => id == "b"), 4)
    ensures !Covered(LeaveAll(hosts, ["b", "a"], (id: HostId) => id == "a"), 3)
  {
    var carried := LeaveAll(hosts, ["a", "b"], (id: HostId) => id == "b");
    FirstFails(hosts, 1, (id: HostId) => id == "b");
    FirstFails(hosts, 2, (id: HostId) => id == "a");
    forall layer | 0 <= layer < 4 ensures Covered(carried, layer) {
      assert carried[0].range.Contains(layer);
    }
  }

  lemma FirstFails(hosts: Hosts, k: nat, reloads: HostId -> bool)
    requires Inv(hosts, 4) && |hosts| == 3 && hosts[0].range == Range(0, 2) && (k == 1 || k == 2)
    requires hosts[1].status == Online && hosts[2].status == Online
    requires !reloads(hosts[k].id) && reloads(hosts[3 - k].id)
    ensures LeaveAll(hosts, [hosts[k].id, hosts[3 - k].id], reloads)
         == [SetRange(hosts[0], Range(0, hosts[3 - k].range.end))]
  {
    TwoLeaves(hosts, hosts[k].id, hosts[3 - k].id, reloads);
    FailedLeave(hosts, 4, k);
    RemoveKeepsInv(hosts, 4, k);
    assert Remove(hosts, k) == [hosts[0], hosts[3 - k]];
    assert hosts[0].range.Disjoint(hosts[3 - k].range);
    LeaveAloneToMother(Remove(hosts, k), 4);
  }

  lemma TwoLeaves(hosts: Hosts, first: HostId, second: HostId, reloads: HostId -> bool)
    ensures LeaveAll(hosts, [first, second], reloads)
         == Leave(Leave(hosts, first, reloads(first)).0, second, reloads(second)).0
  {
    assert [first, second] == [first] + [second];
    LeaveAllAppend(hosts, [first], second, reloads);
    LeaveAllAppend(hosts, [], first, reloads);
    assert [] + [first] == [first];
  }

  lemma FailedLeave(hosts: Hosts, total: int, k: nat)
    requires Inv(hosts, total) && 0 < k < |hosts| && hosts[k].status == Online
    ensures Leave(hosts, hosts[k].id, false).0 == Remove(hosts, k)
  {
    IndexIsUnique(hosts, k);
  }

  /** The only other host leaves: the mother takes over all layers up to its end, with what lies between. */
  lemma LeaveAloneToMother(hosts: Hosts, total: int)
    requires Inv(hosts, total) && |hosts| == 2 && hosts[1].status == Online
    requires hosts[0].range.end <= hosts[1].range.start
    ensures Leave(hosts, hosts[1].id, true).0 == [SetRange(hosts[0], Range(0, hosts[1].range.end))]
  {
    IndexIsUnique(hosts, 1);
    var rest, r := Remove(hosts, 1), hosts[1].range;
    assert rest == [hosts[0]];
    RemoveKeepsInv(hosts, total, 1);
    IndexIsUnique(rest, 0);
    var c := Candidates(rest, r);
    assert c[0] == 0;
    assert CanMerge(rest, 0, r) == Some(Range(0, r.end));
    assert ChooseDonor(rest, r, c, None) == Some(0);
  }
}

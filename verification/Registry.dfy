/** Layer ownership: the host registry of orchestrator/app/registry.py as functions from one registry
    state to the next. Every operation is one atomic step; the call that makes a shard manager reload
    its layers may fail. Live-status drift is not a step. */
module Registry {
  import opened Options

  /** Half-open layer range. */
  datatype Range = Range(start: int, end: int) {
    function Length(): int { end - start }
    predicate NonEmpty() { start < end }
    predicate Within(r: Range) { r.start <= start && end <= r.end }
    predicate Disjoint(r: Range) { end <= r.start || r.end <= start }
    predicate Contains(layer: int) { start <= layer < end }
  }

  datatype Role = Mother | Contributor
  datatype Status = Pending | Online | Offline
  type HostId = string

  datatype Host = Host(
    id: HostId,
    role: Role,
    range: Range,
    layersHosted: int,
    status: Status,
    joinedAt: int,
    lastHeartbeat: int,
    pendingRange: Option<Range>,
    donorId: Option<HostId>,
    shrinkTo: Option<Range>,
    wallet: Option<string>)

  datatype Error =
    | TooFewLayers | TooManyLayers | BadWallet | JoinPending | NoDonor | NotAvailable
    | UnknownHost | MissingPlan | ReservedByOther | MotherCannotLeave | ReloadFailed

  datatype Outcome = Ok | Failed(error: Error)

  /** The hosts dictionary in insertion order. */
  type Hosts = seq<Host>

  const MOTHER: HostId := "mother"

  // ---- lookups

  function IndexOf(hosts: Hosts, id: HostId): (r: Option<nat>)
    ensures r.Some? ==> r.value < |hosts| && hosts[r.value].id == id
    ensures r.None? ==> forall i :: 0 <= i < |hosts| ==> hosts[i].id != id
  {
    if hosts == [] then None
    else if hosts[|hosts| - 1].id == id then Some(|hosts| - 1)
    else IndexOf(hosts[..|hosts| - 1], id)
  }

  /** First host that satisfies p. */
  function First(hosts: Hosts, p: Host -> bool): (r: Option<nat>)
    ensures r.Some? ==> r.value < |hosts| && p(hosts[r.value]) && forall i :: 0 <= i < r.value ==> !p(hosts[i])
    ensures r.None? ==> forall i :: 0 <= i < |hosts| ==> !p(hosts[i])
  {
    if hosts == [] then None
    else
      var before := First(hosts[..|hosts| - 1], p);
      if before.Some? then before
      else if p(hosts[|hosts| - 1]) then Some(|hosts| - 1) else None
  }

  /** First online host with the most layers. */
  function LargestDonor(hosts: Hosts): (r: Option<nat>)
    ensures r.Some? ==> r.value < |hosts| && hosts[r.value].status == Online
    ensures r.Some? ==> forall i :: 0 <= i < |hosts| && hosts[i].status == Online ==>
                          hosts[i].layersHosted <= hosts[r.value].layersHosted
    ensures r.Some? ==> forall i :: 0 <= i < r.value && hosts[i].status == Online ==>
                          hosts[i].layersHosted < hosts[r.value].layersHosted
    ensures r.None? ==> forall i :: 0 <= i < |hosts| ==> hosts[i].status != Online
  {
    if hosts == [] then None
    else
      var before, last := LargestDonor(hosts[..|hosts| - 1]), |hosts| - 1;
      if hosts[last].status == Online && (before.None? || hosts[before.value].layersHosted < hosts[last].layersHosted)
      then Some(last) else before
  }

  predicate ReservedFrom(h: Host, donor: HostId) { h.status == Pending && h.donorId == Some(donor) }

  /** End of the donor's range that is not reserved by a pending host. */
  function EffectiveEnd(hosts: Hosts, donor: Host): int {
    if hosts == [] then donor.range.end
    else
      var before, h := EffectiveEnd(hosts[..|hosts| - 1], donor), hosts[|hosts| - 1];
      if ReservedFrom(h, donor.id) && h.range.start < before then h.range.start else before
  }

  // ---- join

  function ValidWallet(wallet: string): bool {
    |wallet| > 4 && wallet[..4] == "0.0." && forall i :: 4 <= i < |wallet| ==> '0' <= wallet[i] <= '9'
  }

  function NewHost(id: HostId, range: Range, donor: HostId, shrinkTo: Range, wallet: string, now: int): Host {
    Host(id, Contributor, range, range.Length(), Pending, now, now, Some(range), Some(donor), Some(shrinkTo),
         Some(wallet))
  }

  function Join(hosts: Hosts, total: int, layers: int, id: HostId, wallet: string, now: int): (Hosts, Outcome) {
    if layers < 1 then (hosts, Failed(TooFewLayers))
    else if layers >= total then (hosts, Failed(TooManyLayers))
    else if !ValidWallet(wallet) then (hosts, Failed(BadWallet))
    else if First(hosts, (h: Host) => h.status == Pending).Some? then (hosts, Failed(JoinPending))
    else
      var donor := LargestDonor(hosts);
      if donor.None? then (hosts, Failed(NoDonor))
      else
        var d := hosts[donor.value];
        var end := EffectiveEnd(hosts, d);
        if layers > end - d.range.start - 1 then (hosts, Failed(NotAvailable))
        else
          var cut := end - layers;
          (hosts + [NewHost(id, Range(cut, end), d.id, Range(d.range.start, cut), wallet, now)], Ok)
  }

  // ---- mark_ready

  function SetRange(h: Host, r: Range): Host {
    h.(range := r, layersHosted := r.Length())
  }

  function Assigned(h: Host): Range {
    if h.pendingRange.Some? then h.pendingRange.value else h.range
  }

  predicate BlocksShrink(other: Host, host: Host, donor: HostId, shrinkTo: Range) {
    other.id != host.id && ReservedFrom(other, donor) && !other.range.Within(shrinkTo)
  }

  function MarkReady(hosts: Hosts, id: HostId, reloadOk: bool, now: int): (Hosts, Outcome) {
    var at := IndexOf(hosts, id);
    if at.None? then (hosts, Failed(UnknownHost))
    else
      var host := hosts[at.value];
      if host.status == Online then (hosts, Ok)
      else
        var donorAt := if host.donorId.Some? then IndexOf(hosts, host.donorId.value) else None;
        if donorAt.None? || host.shrinkTo.None? then (hosts, Failed(MissingPlan))
        else
          var shrinkTo := host.shrinkTo.value;
          if First(hosts, (o: Host) => BlocksShrink(o, host, host.donorId.value, shrinkTo)).Some?
          then (hosts, Failed(ReservedByOther))
          else if !reloadOk then (hosts, Failed(ReloadFailed))
          else
            var shrunk := hosts[donorAt.value := SetRange(hosts[donorAt.value], shrinkTo)];
            var ready := SetRange(shrunk[at.value], Assigned(host))
                         .(status := Online, lastHeartbeat := now, pendingRange := None, shrinkTo := None);
            (shrunk[at.value := ready], Ok)
  }

  // ---- leave

  predicate Touches(h: Host, r: Range) {
    h.status == Online && (h.range.end == r.start || r.end == h.range.start)
  }

  function Hull(a: Range, b: Range): Range {
    Range(if a.start < b.start then a.start else b.start, if a.end < b.end then b.end else a.end)
  }

  predicate Conflicts(h: Host, donor: HostId, r: Range) {
    h.id != donor && h.status == Online && !(r.end <= h.range.start || r.start >= h.range.end)
  }

  /** _can_merge_ranges: the donor's range after taking over r, unless another host is in the way. */
  function CanMerge(hosts: Hosts, d: nat, r: Range): Option<Range>
    requires d < |hosts|
  {
    var donor := hosts[d];
    if donor.range.end == r.start then Some(Range(donor.range.start, r.end))
    else if r.end == donor.range.start then Some(Range(r.start, donor.range.end))
    else if First(hosts, (h: Host) => Conflicts(h, donor.id, Hull(donor.range, r))).Some? then None
    else Some(Hull(donor.range, r))
  }

  function OnlineMother(hosts: Hosts): (r: Option<nat>)
    ensures r.Some? ==> r.value < |hosts|
  {
    var m := IndexOf(hosts, MOTHER);
    if m.Some? && hosts[m.value].status == Online then m else None
  }

  function AddCandidate(hosts: Hosts, candidates: seq<nat>, c: Option<nat>): (r: seq<nat>)
    requires c.Some? ==> c.value < |hosts|
    requires forall i :: 0 <= i < |candidates| ==> candidates[i] < |hosts|
    ensures forall i :: 0 <= i < |r| ==> r[i] < |hosts|
  {
    if c.Some? && c.value !in candidates then candidates + [c.value] else candidates
  }

  /** The first online host that borders on r. */
  function AdjacentDonor(hosts: Hosts, r: Range): (c: Option<nat>)
    ensures c.Some? ==>
              c.value < |hosts| && Touches(hosts[c.value], r) && forall i :: 0 <= i < c.value ==> !Touches(hosts[i], r)
    ensures c.None? ==> forall i :: 0 <= i < |hosts| ==> !Touches(hosts[i], r)
  {
    First(hosts, (h: Host) => Touches(h, r))
  }

  /** Mother, then an adjacent host, then the largest host. */
  function Candidates(hosts: Hosts, r: Range): (c: seq<nat>)
    ensures forall i :: 0 <= i < |c| ==> c[i] < |hosts|
  {
    AddCandidate(hosts,
      AddCandidate(hosts,
        AddCandidate(hosts, [], OnlineMother(hosts)),
        AdjacentDonor(hosts, r)),
      LargestDonor(hosts))
  }

  /** The donor among the candidates: the last one that can merge, but the mother at once. */
  function ChooseDonor(hosts: Hosts, r: Range, candidates: seq<nat>, chosen: Option<nat>): (c: Option<nat>)
    requires forall i :: 0 <= i < |candidates| ==> candidates[i] < |hosts|
    requires chosen.Some? ==> chosen.value < |hosts| && CanMerge(hosts, chosen.value, r).Some?
    ensures c.Some? ==> c.value < |hosts| && CanMerge(hosts, c.value, r).Some?
  {
    if candidates == [] then chosen
    else if CanMerge(hosts, candidates[0], r).None? then ChooseDonor(hosts, r, candidates[1..], chosen)
    else if hosts[candidates[0]].role == Mother then Some(candidates[0])
    else ChooseDonor(hosts, r, candidates[1..], Some(candidates[0]))
  }

  function Reclaim(hosts: Hosts, r: Range, reloadOk: bool): (Hosts, Outcome) {
    var donor := ChooseDonor(hosts, r, Candidates(hosts, r), None);
    if donor.None? then (hosts, Ok)  // logged only
    else if !reloadOk then (hosts, Failed(ReloadFailed))
    else (hosts[donor.value := SetRange(hosts[donor.value], CanMerge(hosts, donor.value, r).value)], Ok)
  }

  predicate Covering(h: Host, skip: HostId, r: Range) {
    h.id != skip && h.status == Online && r.Within(h.range)
  }

  function Remove(hosts: Hosts, k: nat): (r: Hosts)
    requires k < |hosts|
    ensures |r| == |hosts| - 1
    ensures forall i :: 0 <= i < |r| ==> r[i] == hosts[if i < k then i else i + 1]
  {
    hosts[..k] + hosts[k + 1..]
  }

  /** Does the departing host leave layers behind that somebody must take over? */
  predicate NeedsReclaim(hosts: Hosts, host: Host) {
    || host.status == Online
    || (host.status == Pending && First(hosts, (h: Host) => Covering(h, host.id, host.range)).None?)
  }

  function Leave(hosts: Hosts, id: HostId, reloadOk: bool): (Hosts, Outcome) {
    var at := IndexOf(hosts, id);
    if at.None? then (hosts, Failed(UnknownHost))
    else
      var host := hosts[at.value];
      if host.role == Mother then (hosts, Failed(MotherCannotLeave))
      else if NeedsReclaim(hosts, host) then Reclaim(Remove(hosts, at.value), host.range, reloadOk)
      else (Remove(hosts, at.value), Ok)
  }

  // ---- reaping

  /** Leave for each listed host in turn; errors are logged and skipped. */
  function LeaveAll(hosts: Hosts, ids: seq<HostId>, reloadOk: HostId -> bool): Hosts
    decreases |ids|
  {
    if ids == [] then hosts
    else LeaveAll(Leave(hosts, ids[0], reloadOk(ids[0])).0, ids[1..], reloadOk)
  }

  /** Ids of the hosts that satisfy p, in order. */
  function Select(hosts: Hosts, p: Host -> bool): seq<HostId> {
    if hosts == [] then []
    else Select(hosts[..|hosts| - 1], p) + if p(hosts[|hosts| - 1]) then [hosts[|hosts| - 1].id] else []
  }

  predicate Stale(h: Host, now: int, ttl: int) {
    h.role != Mother && h.status == Online && now - h.lastHeartbeat > ttl
  }

  predicate StalePending(h: Host, now: int, ttl: int) {
    h.role != Mother && h.status == Pending && now - h.joinedAt > ttl
  }

  function Heartbeat(hosts: Hosts, id: HostId, now: int): (Hosts, Outcome) {
    var at := IndexOf(hosts, id);
    if at.None? then (hosts, Failed(UnknownHost))
    else
      var h := hosts[at.value].(lastHeartbeat := now);
      (hosts[at.value := if h.status == Offline then h.(status := Online) else h], Ok)
  }

  // ---- steps and runs

  datatype Step =
    | JoinStep(layers: int, id: HostId, wallet: string, now: int)
    | ReadyStep(id: HostId, reloadOk: bool, now: int)
    | LeaveStep(id: HostId, reloadOk: bool)
    | ReapStale(now: int, ttl: int, reloads: HostId -> bool)
    | ReapStalePending(now: int, ttl: int, reloads: HostId -> bool)
    | HeartbeatStep(id: HostId, now: int)

  function Apply(hosts: Hosts, total: int, step: Step): Hosts {
    match step
    case JoinStep(layers, id, wallet, now) => Join(hosts, total, layers, id, wallet, now).0
    case ReadyStep(id, ok, now) => MarkReady(hosts, id, ok, now).0
    case LeaveStep(id, ok) => Leave(hosts, id, ok).0
    case ReapStale(now, ttl, reloads) => LeaveAll(hosts, Select(hosts, (h: Host) => Stale(h, now, ttl)), reloads)
    case ReapStalePending(now, ttl, reloads) =>
      LeaveAll(hosts, Select(hosts, (h: Host) => StalePending(h, now, ttl)), reloads)
    case HeartbeatStep(id, now) => Heartbeat(hosts, id, now).0
  }

  function Initial(total: int, wallet: Option<string>, now: int): Hosts {
    [Host(MOTHER, Mother, Range(0, total), total, Online, now, now, None, None, None, wallet)]
  }

  /** Fresh identifiers are never in use. */
  ghost predicate Allowed(hosts: Hosts, step: Step) {
    step.JoinStep? ==> IndexOf(hosts, step.id).None?
  }

  /** All states a registry goes through; steps are appended at the end. */
  ghost predicate Run(states: seq<Hosts>, steps: seq<Step>, total: int) {
    && |states| == |steps| + 1
    && (exists wallet: Option<string>, now: int :: states[0] == Initial(total, wallet, now))
    && forall i :: 0 <= i < |steps| ==>
         Allowed(states[i], steps[i]) && states[i + 1] == Apply(states[i], total, steps[i])
  }

  // ---- the invariant

  ghost predicate UniqueIds(hosts: Hosts) {
    forall i, j :: 0 <= i < j < |hosts| ==> hosts[i].id != hosts[j].id
  }

  ghost predicate MotherFirst(hosts: Hosts) {
    && |hosts| > 0
    && hosts[0].id == MOTHER && hosts[0].role == Mother && hosts[0].status == Online && hosts[0].range.start == 0
    && forall i :: 0 < i < |hosts| ==> hosts[i].role == Contributor
  }

  ghost predicate RangesInBounds(hosts: Hosts, total: int) {
    forall i :: 0 <= i < |hosts| ==>
      && hosts[i].status != Offline
      && 0 <= hosts[i].range.start < hosts[i].range.end <= total
      && hosts[i].layersHosted == hosts[i].range.Length()
  }

  ghost predicate OnlineDisjoint(hosts: Hosts) {
    forall i, j :: 0 <= i < j < |hosts| && hosts[i].status == Online && hosts[j].status == Online ==>
      hosts[i].range.Disjoint(hosts[j].range)
  }

  ghost predicate AtMostOnePending(hosts: Hosts) {
    forall i, j :: 0 <= i < j < |hosts| ==> hosts[i].status == Online || hosts[j].status == Online
  }

  /** r is free of online hosts. */
  ghost predicate Free(hosts: Hosts, r: Range) {
    forall i :: 0 <= i < |hosts| && hosts[i].status == Online ==> r.Disjoint(hosts[i].range)
  }

  ghost predicate Owned(hosts: Hosts, r: Range) {
    exists i :: 0 <= i < |hosts| && hosts[i].status == Online && r.Within(hosts[i].range)
  }

  /** A reservation: the plan cuts the reserved range off the donor's high end, and the donor, while it
      is there, still owns all that the plan splits. */
  ghost predicate PlanMatches(hosts: Hosts, p: Host) {
    && p.pendingRange == Some(p.range)
    && p.donorId.Some? && p.donorId.value != p.id
    && p.shrinkTo.Some?
    && var cut := p.shrinkTo.value;
       && 0 <= cut.start < cut.end == p.range.start
       && (p.donorId.value == MOTHER ==> cut.start == 0)
       && forall i :: 0 <= i < |hosts| && hosts[i].id == p.donorId.value ==>
            Range(cut.start, p.range.end).Within(hosts[i].range)
  }

  ghost predicate PendingSound(hosts: Hosts) {
    forall i :: 0 <= i < |hosts| && hosts[i].status == Pending ==>
      && PlanMatches(hosts, hosts[i])
      && (Owned(hosts, hosts[i].range) || Free(hosts, hosts[i].range))
  }

  ghost predicate Inv(hosts: Hosts, total: int) {
    && UniqueIds(hosts)
    && MotherFirst(hosts)
    && RangesInBounds(hosts, total)
    && OnlineDisjoint(hosts)
    && AtMostOnePending(hosts)
    && PendingSound(hosts)
  }
}

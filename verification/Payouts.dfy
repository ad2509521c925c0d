/** Layer-weighted payouts: plan_payouts and the transfer of orchestrator/app/hedera_payouts.py, the
    amounts of orchestrator/app/hedera_escrow.py, and the request price of orchestrator/app/config.py. */
module Payouts {
  import opened Options
  import opened Registry
  import opened RegistryInvariant
  import opened RegistryCoverage
  import opened Manifest

  datatype Payout = Payout(hostId: HostId, account: string, layers: int, amount: int)

  predicate HasWallet(h: Host) { h.wallet.Some? && h.wallet.value != "" }

  /** Online hosts with a wallet and at least one layer. */
  function OnlinePayoutHosts(hosts: Hosts): Hosts {
    if hosts == [] then []
    else (if hosts[0].status == Online && HasWallet(hosts[0]) && hosts[0].layersHosted > 0 then [hosts[0]] else [])
         + OnlinePayoutHosts(hosts[1..])
  }

  function PayoutOf(h: Host, costPerLayer: int): Payout
    requires HasWallet(h)
  {
    Payout(h.id, h.wallet.value, h.layersHosted, h.layersHosted * costPerLayer)
  }

  function Plan(hosts: Hosts, costPerLayer: int): seq<Payout> {
    if hosts == [] then []
    else (if HasWallet(hosts[0]) && hosts[0].layersHosted > 0 then [PayoutOf(hosts[0], costPerLayer)] else [])
         + Plan(hosts[1..], costPerLayer)
  }

  function TotalOf(payouts: seq<Payout>): int {
    if payouts == [] then 0 else payouts[0].amount + TotalOf(payouts[1..])
  }

  /** Price of a request. */
  function RequestPrice(total: int, costPerLayer: int): int { total * costPerLayer }

  method PlanPayouts(hosts: Hosts, costPerLayer: int) returns (out: seq<Payout>)
    ensures out == Plan(hosts, costPerLayer)
    ensures exists at :: PaidAt(hosts, false, costPerLayer, out, at)
  {
    ghost var at := PlanHostByHost(hosts, costPerLayer);
    hide PaidAt;
    out := [];
    for i := 0 to |hosts|
      invariant out + Plan(hosts[i..], costPerLayer) == Plan(hosts, costPerLayer)
    {
      PlanCons(hosts, i, costPerLayer);
      if !HasWallet(hosts[i]) || hosts[i].layersHosted <= 0 {
        continue;
      }
      out := out + [PayoutOf(hosts[i], costPerLayer)];
    }
    assert out + Plan(hosts[|hosts|..], costPerLayer) == out;
  }

  /** The payouts are those of the hosts at these places, in order: every host with a wallet and at least one
      layer, and of all hosts only the online ones where that is asked for. */
  ghost predicate PaidAt(hosts: Hosts, onlineOnly: bool, costPerLayer: int, out: seq<Payout>, at: seq<nat>) {
    && |at| == |out|
    && (forall i, j :: 0 <= i < j < |at| ==> at[i] < at[j])
    && (forall i :: 0 <= i < |at| ==> PaysHost(hosts, onlineOnly, costPerLayer, out[i], at[i]))
    && (forall k: nat :: k < |hosts| && Payable(hosts[k], onlineOnly) ==> k in at)
  }

  ghost predicate PaysHost(hosts: Hosts, onlineOnly: bool, costPerLayer: int, p: Payout, k: nat) {
    && k < |hosts| && Payable(hosts[k], onlineOnly)
    && p.hostId == hosts[k].id && hosts[k].wallet == Some(p.account)
    && p.layers == hosts[k].layersHosted && p.amount == hosts[k].layersHosted * costPerLayer
  }

  ghost predicate Payable(h: Host, onlineOnly: bool) {
    (onlineOnly ==> h.status == Online) && h.wallet.Some? && h.wallet.value != "" && h.layersHosted > 0
  }

  lemma PaysHostShifted(hosts: Hosts, onlineOnly: bool, costPerLayer: int, p: Payout, k: nat)
    requires hosts != [] && PaysHost(hosts[1..], onlineOnly, costPerLayer, p, k)
    ensures PaysHost(hosts, onlineOnly, costPerLayer, p, k + 1)
  {
  }

  lemma ShiftPlaces(hosts: Hosts, onlineOnly: bool, costPerLayer: int, out: seq<Payout>, at: seq<nat>)
    returns (shifted: seq<nat>)
    requires hosts != [] && PaidAt(hosts[1..], onlineOnly, costPerLayer, out, at)
    requires !Payable(hosts[0], onlineOnly)
    ensures PaidAt(hosts, onlineOnly, costPerLayer, out, shifted)
  {
    hide Payable, PaysHost;
    shifted := seq(|at|, i requires 0 <= i < |at| => at[i] + 1);
    forall i | 0 <= i < |shifted| ensures PaysHost(hosts, onlineOnly, costPerLayer, out[i], shifted[i]) {
      PaysHostShifted(hosts, onlineOnly, costPerLayer, out[i], at[i]);
    }
    forall k: nat | k < |hosts| && Payable(hosts[k], onlineOnly) ensures k in shifted {
      assert hosts[k] == hosts[1..][k - 1];
      var i :| 0 <= i < |at| && at[i] == k - 1;
      assert shifted[i] == k;
    }
  }

  lemma PlaceFirst(hosts: Hosts, onlineOnly: bool, costPerLayer: int, p: Payout, out: seq<Payout>, at: seq<nat>)
    returns (places: seq<nat>)
    requires hosts != [] && PaidAt(hosts[1..], onlineOnly, costPerLayer, out, at)
    requires PaysHost(hosts, onlineOnly, costPerLayer, p, 0)
    ensures PaidAt(hosts, onlineOnly, costPerLayer, [p] + out, places)
  {
    hide Payable, PaysHost;
    var all := [p] + out;
    places := [0] + seq(|at|, i requires 0 <= i < |at| => at[i] + 1);
    forall i | 0 <= i < |places| ensures PaysHost(hosts, onlineOnly, costPerLayer, all[i], places[i]) {
      if i > 0 {
        PaysHostShifted(hosts, onlineOnly, costPerLayer, out[i - 1], at[i - 1]);
      }
    }
    forall k: nat | k < |hosts| && Payable(hosts[k], onlineOnly) ensures k in places {
      if k == 0 {
        assert places[0] == 0;
      } else {
        assert hosts[k] == hosts[1..][k - 1];
        var i :| 0 <= i < |at| && at[i] == k - 1;
        assert places[i + 1] == k;
      }
    }
  }

  lemma FirstIsPaid(hosts: Hosts, onlineOnly: bool, costPerLayer: int)
    requires hosts != [] && Payable(hosts[0], onlineOnly)
    ensures HasWallet(hosts[0]) && PaysHost(hosts, onlineOnly, costPerLayer, PayoutOf(hosts[0], costPerLayer), 0)
  {
  }

  lemma PlanFirst(hosts: Hosts, costPerLayer: int)
    requires hosts != []
    ensures Payable(hosts[0], false) <==> HasWallet(hosts[0]) && hosts[0].layersHosted > 0
    ensures Plan(hosts, costPerLayer)
         == (if Payable(hosts[0], false) then [PayoutOf(hosts[0], costPerLayer)] else [])
            + Plan(hosts[1..], costPerLayer)
  {
  }

  /** What is planned, host by host. */
  lemma {:induction false} PlanHostByHost(hosts: Hosts, costPerLayer: int) returns (at: seq<nat>)
    ensures PaidAt(hosts, false, costPerLayer, Plan(hosts, costPerLayer), at)
  {
    at := [];
    if hosts != [] {
      hide PaidAt, PaysHost, PayoutOf, Plan, Payable, HasWallet;
      var rest := PlanHostByHost(hosts[1..], costPerLayer);
      var others := Plan(hosts[1..], costPerLayer);
      PlanFirst(hosts, costPerLayer);
      if Payable(hosts[0], false) {
        FirstIsPaid(hosts, false, costPerLayer);
        at := PlaceFirst(hosts, false, costPerLayer, PayoutOf(hosts[0], costPerLayer), others, rest);
      } else {
        assert [] + others == others;
        at := ShiftPlaces(hosts, false, costPerLayer, others, rest);
      }
    }
  }

  /** What one request pays, host by host: the online hosts with a wallet and at least one layer. */
  lemma {:induction false} PaidHostByHost(hosts: Hosts, costPerLayer: int) returns (at: seq<nat>)
    ensures PaidAt(hosts, true, costPerLayer, Plan(OnlinePayoutHosts(hosts), costPerLayer), at)
  {
    at := [];
    if hosts != [] {
      hide PaidAt, PaysHost, PayoutOf;
      var rest := PaidHostByHost(hosts[1..], costPerLayer);
      var others := OnlinePayoutHosts(hosts[1..]);
      if Payable(hosts[0], true) {
        FirstIsPaid(hosts, true, costPerLayer);
        assert OnlinePayoutHosts(hosts) == [hosts[0]] + others && ([hosts[0]] + others)[1..] == others;
        at := PlaceFirst(hosts, true, costPerLayer, PayoutOf(hosts[0], costPerLayer), Plan(others, costPerLayer), rest);
      } else {
        assert OnlinePayoutHosts(hosts) == others;
        at := ShiftPlaces(hosts, true, costPerLayer, Plan(others, costPerLayer), rest);
      }
    }
  }

  // ---- the native transfer

  datatype Leg = Leg(account: string, amount: int)

  function SumLegs(legs: seq<Leg>): int {
    if legs == [] then 0 else legs[0].amount + SumLegs(legs[1..])
  }

  function NetOf(legs: seq<Leg>, account: string): int {
    if legs == [] then 0 else (if legs[0].account == account then legs[0].amount else 0) + NetOf(legs[1..], account)
  }

  /** Planned credits to one account. */
  function Credited(planned: seq<Payout>, account: string): int {
    if planned == [] then 0
    else (if planned[0].account == account then planned[0].amount else 0) + Credited(planned[1..], account)
  }

  lemma {:induction false} SumLegsAppend(legs: seq<Leg>, leg: Leg, account: string)
    ensures SumLegs(legs + [leg]) == SumLegs(legs) + leg.amount
    ensures NetOf(legs + [leg], account) == NetOf(legs, account) + if leg.account == account then leg.amount else 0
  {
    if legs == [] {
      assert legs + [leg] == [leg];
    } else {
      assert (legs + [leg])[1..] == legs[1..] + [leg];
      SumLegsAppend(legs[1..], leg, account);
    }
  }

  /** The planned payouts that are worth a transfer. */
  function Positive(planned: seq<Payout>): seq<Payout> {
    if planned == [] then []
    else (if planned[0].amount > 0 then [planned[0]] else []) + Positive(planned[1..])
  }

  lemma {:induction false} NothingNegative(planned: seq<Payout>, account: string)
    requires forall i :: 0 <= i < |planned| ==> planned[i].amount >= 0
    ensures Credited(Positive(planned), account) == Credited(planned, account)
    ensures TotalOf(Positive(planned)) == TotalOf(planned)
  {
    if planned != [] {
      NothingNegative(planned[1..], account);
      if planned[0].amount > 0 {
        assert Positive(planned)[1..] == Positive(planned[1..]);
      } else {
        assert Positive(planned) == Positive(planned[1..]);
      }
    }
  }

  lemma PositiveCons(planned: seq<Payout>, account: string)
    requires planned != []
    ensures var p, rest := planned[0], Positive(planned[1..]);
            && Credited(Positive(planned), account)
               == Credited(rest, account) + (if p.amount > 0 && p.account == account then p.amount else 0)
            && TotalOf(Positive(planned)) == TotalOf(rest) + (if p.amount > 0 then p.amount else 0)
  {
    if planned[0].amount > 0 {
      assert Positive(planned)[1..] == Positive(planned[1..]);
    } else {
      assert Positive(planned) == Positive(planned[1..]);
    }
  }

  /** The transfer of redistribute: the mother's account is debited once and every other account with a
      positive payout is credited. The legs sum to zero, every other account receives exactly its positive
      payouts, and the mother ends up with the negative of all of that. */
  method BuildTransfer(planned: seq<Payout>, mother: string) returns (legs: seq<Leg>)
    ensures SumLegs(legs) == 0
    ensures forall account :: account != mother ==> NetOf(legs, account) == Credited(Positive(planned), account)
    ensures NetOf(legs, mother) == Credited(Positive(planned), mother) - TotalOf(Positive(planned))
  {
    var credits: seq<Leg> := [];
    var total := 0;
    for i := 0 to |planned|
      invariant total == SumLegs(credits) && total >= 0
      invariant NetOf(credits, mother) == 0
      invariant forall account :: account != mother ==>
                  NetOf(credits, account) + Credited(Positive(planned[i..]), account)
                  == Credited(Positive(planned), account)
      invariant total - Credited(Positive(planned[i..]), mother) + TotalOf(Positive(planned[i..]))
             == TotalOf(Positive(planned)) - Credited(Positive(planned), mother)
      invariant total == 0 ==> credits == []
    {
      var p := planned[i];
      assert planned[i..][1..] == planned[i + 1..];
      forall account { PositiveCons(planned[i..], account); }
      if p.account != mother && p.amount > 0 {
        forall account { SumLegsAppend(credits, Leg(p.account, p.amount), account); }
        credits := credits + [Leg(p.account, p.amount)];
        total := total + p.amount;
      }
    }
    assert planned[|planned|..] == [];
    legs := [];
    if total > 0 {
      legs := [Leg(mother, -total)] + credits;
      assert legs[1..] == credits;
    }
  }

  // ---- the escrow release

  function AccountsOf(planned: seq<Payout>): seq<string> {
    seq(|planned|, i requires 0 <= i < |planned| => planned[i].account)
  }

  function AmountsOf(planned: seq<Payout>): seq<int> {
    seq(|planned|, i requires 0 <= i < |planned| => planned[i].amount)
  }

  ghost predicate Listed(recipients: seq<string>, amounts: seq<int>, paid: seq<Payout>) {
    recipients == AccountsOf(paid) && amounts == AmountsOf(paid)
  }

  lemma ListOne(recipients: seq<string>, amounts: seq<int>, paid: seq<Payout>, host: Host, costPerLayer: int)
    requires Listed(recipients, amounts, paid) && HasWallet(host)
    ensures var p := PayoutOf(host, costPerLayer);
            Listed(recipients + [host.wallet.value], amounts + [p.amount], paid + [p])
  {
  }

  /** What is paid to the first i hosts. */
  ghost predicate PaidSoFar(paid: seq<Payout>, hosts: Hosts, i: nat, costPerLayer: int)
    requires i <= |hosts|
  {
    paid + Positive(Plan(hosts[i..], costPerLayer)) == Positive(Plan(hosts, costPerLayer))
  }

  predicate GetsPaid(host: Host, costPerLayer: int) {
    HasWallet(host) && host.layersHosted > 0 && PayoutOf(host, costPerLayer).amount > 0
  }

  lemma PayNext(paid: seq<Payout>, hosts: Hosts, i: nat, costPerLayer: int)
    requires i < |hosts| && PaidSoFar(paid, hosts, i, costPerLayer)
    ensures var host := hosts[i];
            PaidSoFar(if GetsPaid(host, costPerLayer) then paid + [PayoutOf(host, costPerLayer)] else paid,
                      hosts, i + 1, costPerLayer)
  {
    PlanCons(hosts, i, costPerLayer);
  }

  /** recipients and amounts of release(): the positive ones of the planned payouts, in order. */
  method EscrowAmounts(hosts: Hosts, costPerLayer: int) returns (recipients: seq<string>, amounts: seq<int>)
    ensures recipients == AccountsOf(Positive(Plan(hosts, costPerLayer)))
    ensures amounts == AmountsOf(Positive(Plan(hosts, costPerLayer)))
    ensures var paid := Positive(Plan(hosts, costPerLayer));
            && |recipients| == |amounts| == |paid|
            && forall i :: 0 <= i < |paid| ==> recipients[i] == paid[i].account && amounts[i] == paid[i].amount
  {
    recipients, amounts := [], [];
    ghost var paid: seq<Payout> := [];
    assert hosts[0..] == hosts;
    for i := 0 to |hosts|
      invariant PaidSoFar(paid, hosts, i, costPerLayer) && Listed(recipients, amounts, paid)
    {
      hide PaidSoFar, Listed, PayoutOf;
      var host := hosts[i];
      PayNext(paid, hosts, i, costPerLayer);
      if !HasWallet(host) || host.layersHosted <= 0 {
        continue;
      }
      var amount := PayoutOf(host, costPerLayer).amount;
      if amount <= 0 {
        continue;
      }
      ListOne(recipients, amounts, paid, host, costPerLayer);
      paid := paid + [PayoutOf(host, costPerLayer)];
      recipients := recipients + [host.wallet.value];
      amounts := amounts + [amount];
    }
    assert Positive(Plan(hosts[|hosts|..], costPerLayer)) == [];
  }

  lemma PlanCons(hosts: Hosts, i: nat, costPerLayer: int)
    requires i < |hosts|
    ensures var rest := Plan(hosts[i + 1..], costPerLayer);
            if HasWallet(hosts[i]) && hosts[i].layersHosted > 0
            then
              var p := PayoutOf(hosts[i], costPerLayer);
              && Plan(hosts[i..], costPerLayer) == [p] + rest
              && Positive(Plan(hosts[i..], costPerLayer)) == (if p.amount > 0 then [p] else []) + Positive(rest)
            else Plan(hosts[i..], costPerLayer) == rest
  {
  }

  /** For a positive price the escrow pays every planned payout; for price 0 it pays nobody. */
  lemma {:induction false} EscrowPaysPlan(hosts: Hosts, costPerLayer: int)
    requires costPerLayer >= 0
    ensures Positive(Plan(hosts, costPerLayer)) == if costPerLayer > 0 then Plan(hosts, costPerLayer) else []
  {
    if hosts != [] {
      EscrowPaysPlan(hosts[1..], costPerLayer);
      assert hosts[0..] == hosts;
      PlanCons(hosts, 0, costPerLayer);
      if hosts[0].layersHosted > 0 && costPerLayer > 0 {
        assert hosts[0].layersHosted * costPerLayer > 0;
      }
    }
  }

  // ---- conservation

  function SpanLayers(spans: Spans): int {
    if spans == [] then 0 else spans[0].range.Length() + SpanLayers(spans[1..])
  }

  /** Sum of the cover counts of the layers 0 .. n. */
  function CoverSum(spans: Spans, n: nat): nat {
    if n == 0 then 0 else CoverSum(spans, n - 1) + CoverCount(spans, n - 1)
  }

  function LayersBelow(r: Range, n: nat): int {
    if n <= r.start then 0 else if n <= r.end then n - r.start else r.end - r.start
  }

  lemma {:induction false} CoverSumCons(s: LayerSpan, spans: Spans, n: nat)
    requires 0 <= s.range.start <= s.range.end
    ensures CoverSum([s] + spans, n) == CoverSum(spans, n) + LayersBelow(s.range, n)
  {
    if n > 0 {
      CoverSumCons(s, spans, n - 1);
      assert ([s] + spans)[1..] == spans;
    }
  }

  lemma {:induction false} CoverSumEmpty(n: nat)
    ensures CoverSum([], n) == 0
  {
    if n > 0 {
      CoverSumEmpty(n - 1);
    }
  }

  /** Counting layers host by host is the same as counting hosts layer by layer. */
  lemma {:induction false} DoubleCount(spans: Spans, total: nat)
    requires forall i :: 0 <= i < |spans| ==> 0 <= spans[i].range.start <= spans[i].range.end <= total
    ensures SpanLayers(spans) == CoverSum(spans, total)
  {
    if spans == [] {
      CoverSumEmpty(total);
    } else {
      DoubleCount(spans[1..], total);
      assert spans == [spans[0]] + spans[1..];
      CoverSumCons(spans[0], spans[1..], total);
    }
  }

  ghost predicate EachOnce(spans: Spans, n: nat) {
    forall layer :: 0 <= layer < n ==> CoverCount(spans, layer) == 1
  }

  lemma {:induction false} AtMostOnce(spans: Spans, n: nat)
    requires forall layer :: 0 <= layer < n ==> CoverCount(spans, layer) <= 1
    ensures CoverSum(spans, n) <= n
    ensures CoverSum(spans, n) == n <==> EachOnce(spans, n)
  {
    if n > 0 {
      AtMostOnce(spans, n - 1);
      assert EachOnce(spans, n) <==> EachOnce(spans, n - 1) && CoverCount(spans, n - 1) == 1;
    }
  }

  /** Layers of the online hosts that can be paid, or that cannot. */
  function LayersOf(hosts: Hosts, paid: bool): int {
    if hosts == [] then 0
    else
      (if hosts[0].status == Online && HasWallet(hosts[0]) == paid then hosts[0].layersHosted else 0)
      + LayersOf(hosts[1..], paid)
  }

  ghost predicate LayersAreRanges(hosts: Hosts) {
    forall i :: 0 <= i < |hosts| ==> hosts[i].layersHosted == hosts[i].range.Length() > 0
  }

  function PlannedLayers(hosts: Hosts): int {
    if hosts == [] then 0
    else
      (if HasWallet(hosts[0]) && hosts[0].layersHosted > 0 then hosts[0].layersHosted else 0)
      + PlannedLayers(hosts[1..])
  }

  lemma Distribute(a: int, b: int, c: int)
    ensures (a + b) * c == a * c + b * c
  {
  }

  lemma {:induction false} PlanTotal(hosts: Hosts, costPerLayer: int)
    ensures TotalOf(Plan(hosts, costPerLayer)) == PlannedLayers(hosts) * costPerLayer
  {
    if hosts != [] {
      PlanTotal(hosts[1..], costPerLayer);
      assert hosts[0..] == hosts;
      PlanCons(hosts, 0, costPerLayer);
      if HasWallet(hosts[0]) && hosts[0].layersHosted > 0 {
        var p, rest := PayoutOf(hosts[0], costPerLayer), Plan(hosts[1..], costPerLayer);
        assert ([p] + rest)[0] == p && ([p] + rest)[1..] == rest;
        Distribute(hosts[0].layersHosted, PlannedLayers(hosts[1..]), costPerLayer);
      }
    }
  }

  lemma {:induction false} PlannedAreOnlinePaid(hosts: Hosts)
    requires LayersAreRanges(hosts)
    ensures PlannedLayers(OnlinePayoutHosts(hosts)) == LayersOf(hosts, true)
  {
    if hosts != [] {
      var rest := OnlinePayoutHosts(hosts[1..]);
      PlannedAreOnlinePaid(hosts[1..]);
      if hosts[0].status == Online && HasWallet(hosts[0]) {
        assert OnlinePayoutHosts(hosts)[1..] == rest;
      } else {
        assert OnlinePayoutHosts(hosts) == rest;
      }
    }
  }

  lemma {:induction false} PaidAndUnpaid(hosts: Hosts)
    requires LayersAreRanges(hosts)
    ensures SpanLayers(OnlineSpans(hosts)) == LayersOf(hosts, true) + LayersOf(hosts, false)
  {
    if hosts != [] {
      PaidAndUnpaid(hosts[1..]);
      if hosts[0].status == Online {
        assert OnlineSpans(hosts)[1..] == OnlineSpans(hosts[1..]);
      } else {
        assert OnlineSpans(hosts) == OnlineSpans(hosts[1..]);
      }
    }
  }

  ghost predicate AllPayable(hosts: Hosts) {
    forall i :: 0 <= i < |hosts| && hosts[i].status == Online ==> HasWallet(hosts[i])
  }

  lemma {:induction false} NothingUnpaid(hosts: Hosts)
    requires LayersAreRanges(hosts)
    ensures LayersOf(hosts, false) >= 0
    ensures LayersOf(hosts, false) == 0 <==> AllPayable(hosts)
  {
    if hosts != [] {
      NothingUnpaid(hosts[1..]);
      assert AllPayable(hosts) <==> (hosts[0].status == Online ==> HasWallet(hosts[0])) && AllPayable(hosts[1..]) by {
        assert forall i :: 0 <= i < |hosts[1..]| ==> hosts[1..][i] == hosts[i + 1];
        assert forall i :: 0 < i < |hosts| ==> hosts[i] == hosts[1..][i - 1];
      }
    }
  }

  /** In every state of the registry the online spans hold at most total layers, and all of them exactly
      when the manifest is complete. */
  lemma OnlineLayersBounded(hosts: Hosts, total: int)
    requires Inv(hosts, total) && total >= 1
    ensures SpanLayers(OnlineSpans(hosts)) <= total
    ensures SpanLayers(OnlineSpans(hosts)) == total <==> IsComplete(BuildManifest(hosts), total)
  {
    var spans := OnlineSpans(hosts);
    forall i | 0 <= i < |spans| ensures 0 <= spans[i].range.start <= spans[i].range.end <= total {
      OnlineSpanIsHost(hosts, spans[i]);
      assert spans[i] in spans;
    }
    DoubleCount(spans, total);
    forall layer ensures CoverCount(spans, layer) == if Covered(hosts, layer) then 1 else 0 {
      OnlineCount(hosts, layer);
    }
    AtMostOnce(spans, total);
    assert EachOnce(spans, total) <==> Complete(hosts, total);
    ManifestCompleteIffCovered(hosts, total);
  }

  /** What one request pays out. */
  function PaidOut(hosts: Hosts, costPerLayer: int): int {
    TotalOf(Plan(OnlinePayoutHosts(hosts), costPerLayer))
  }

  /** A request never pays out more than it costs, in any state of the registry; and, for a positive
      price, it pays out exactly what it costs if and only if the layer map is complete and every online
      host has a wallet. */
  lemma {:induction false} PayoutsNeverExceedPrice(hosts: Hosts, total: int, costPerLayer: int)
    requires Inv(hosts, total) && total >= 1 && costPerLayer >= 0
    ensures 0 <= PaidOut(hosts, costPerLayer) <= RequestPrice(total, costPerLayer)
    ensures costPerLayer > 0 ==>
              (PaidOut(hosts, costPerLayer) == RequestPrice(total, costPerLayer) <==>
                 IsComplete(BuildManifest(hosts), total) && AllPayable(hosts))
  {
    assert LayersAreRanges(hosts);
    OnlineLayersBounded(hosts, total);
    PlanTotal(OnlinePayoutHosts(hosts), costPerLayer);
    PlannedAreOnlinePaid(hosts);
    PaidAndUnpaid(hosts);
    NothingUnpaid(hosts);
    PaidIsNonNegative(OnlinePayoutHosts(hosts), costPerLayer);
    PriceAlgebra(SpanLayers(OnlineSpans(hosts)), LayersOf(hosts, false), total, costPerLayer);
  }

  lemma {:induction false} PaidIsNonNegative(hosts: Hosts, costPerLayer: int)
    requires costPerLayer >= 0
    ensures TotalOf(Plan(hosts, costPerLayer)) >= 0
  {
    if hosts != [] {
      PaidIsNonNegative(hosts[1..], costPerLayer);
      if HasWallet(hosts[0]) && hosts[0].layersHosted > 0 {
        assert Plan(hosts, costPerLayer)[1..] == Plan(hosts[1..], costPerLayer);
        assert hosts[0].layersHosted * costPerLayer >= 0;
      } else {
        assert Plan(hosts, costPerLayer) == Plan(hosts[1..], costPerLayer);
      }
    }
  }

  lemma PriceAlgebra(layers: int, unpaid: int, total: int, cost: int)
    requires layers <= total && unpaid >= 0 && cost >= 0
    ensures (layers - unpaid) * cost <= total * cost
    ensures cost > 0 ==> ((layers - unpaid) * cost == total * cost <==> layers == total && unpaid == 0)
  {
    var gap := total - layers + unpaid;
    assert total * cost == (layers - unpaid) * cost + gap * cost;
    assert gap * cost >= 0;
    if gap > 0 && cost > 0 {
      assert gap * cost > 0;
    }
  }
}

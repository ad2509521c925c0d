/** The layer map built from the registry: orchestrator/app/swarm_map.py. */
module Manifest {
  import opened Options
  import opened Registry
  import opened RegistryInvariant
  import opened RegistryCoverage

  datatype LayerSpan = LayerSpan(hostId: HostId, role: Role, range: Range)

  type Spans = seq<LayerSpan>

  // ---- sorting by first layer

  function InsertByStart(s: LayerSpan, spans: Spans): (r: Spans)
    ensures |r| == |spans| + 1
  {
    if spans == [] || s.range.start <= spans[0].range.start then [s] + spans
    else [spans[0]] + InsertByStart(s, spans[1..])
  }

  /** Stable sort by start. */
  function SortByStart(spans: Spans): (r: Spans)
    ensures |r| == |spans|
  {
    if spans == [] then [] else InsertByStart(spans[0], SortByStart(spans[1..]))
  }

  ghost predicate SortedByStart(spans: Spans) {
    forall i, j :: 0 <= i < j < |spans| ==> spans[i].range.start <= spans[j].range.start
  }

  /** On how many spans a layer is. */
  function CoverCount(spans: Spans, layer: int): nat {
    if spans == [] then 0 else (if spans[0].range.Contains(layer) then 1 else 0) + CoverCount(spans[1..], layer)
  }

  lemma {:induction false} InsertFacts(s: LayerSpan, spans: Spans, layer: int)
    requires SortedByStart(spans)
    ensures SortedByStart(InsertByStart(s, spans))
    ensures CoverCount(InsertByStart(s, spans), layer)
         == CoverCount(spans, layer) + if s.range.Contains(layer) then 1 else 0
    ensures forall x :: x in InsertByStart(s, spans) <==> x == s || x in spans
  {
    if spans == [] || s.range.start <= spans[0].range.start {
      assert ([s] + spans)[1..] == spans;
    } else {
      InsertFacts(s, spans[1..], layer);
      var rest := InsertByStart(s, spans[1..]);
      assert ([spans[0]] + rest)[1..] == rest;
      assert spans == [spans[0]] + spans[1..];
      forall x | x in rest ensures spans[0].range.start <= x.range.start {
        assert x == s || x in spans[1..];
      }
    }
  }

  lemma {:induction false} SortFacts(spans: Spans, layer: int)
    ensures SortedByStart(SortByStart(spans))
    ensures CoverCount(SortByStart(spans), layer) == CoverCount(spans, layer)
    ensures forall x :: x in SortByStart(spans) <==> x in spans
  {
    if spans != [] {
      SortFacts(spans[1..], layer);
      InsertFacts(spans[0], SortByStart(spans[1..]), layer);
      assert spans == [spans[0]] + spans[1..];
    }
  }

  // ---- is_complete

  function NonEmptySpans(spans: Spans): Spans {
    if spans == [] then []
    else (if spans[0].range.NonEmpty() then [spans[0]] else []) + NonEmptySpans(spans[1..])
  }

  /** The spans follow one another without gap or overlap from `expected` to `total`. */
  predicate Chained(spans: Spans, expected: int, total: int) {
    if spans == [] then expected == total
    else spans[0].range.start == expected && Chained(spans[1..], spans[0].range.end, total)
  }

  predicate IsComplete(spans: Spans, total: int) {
    NonEmptySpans(spans) != [] && Chained(SortByStart(NonEmptySpans(spans)), 0, total)
  }

  /** SwarmManifest.is_complete as the sweep it is. */
  method CheckComplete(spans: Spans, total: int) returns (complete: bool)
    ensures complete == IsComplete(spans, total)
  {
    var online := NonEmptySpans(spans);
    if online == [] {
      return false;
    }
    online := SortByStart(online);
    var expected := 0;
    for i := 0 to |online|
      invariant Chained(online, 0, total) == Chained(online[i..], expected, total)
    {
      if online[i].range.start != expected {
        return false;
      }
      expected := online[i].range.end;
    }
    return expected == total;
  }

  ghost predicate AllNonEmpty(spans: Spans) {
    forall i :: 0 <= i < |spans| ==> spans[i].range.NonEmpty()
  }

  lemma {:induction false} NonEmptyFacts(spans: Spans, layer: int)
    ensures AllNonEmpty(NonEmptySpans(spans))
    ensures CoverCount(NonEmptySpans(spans), layer) == CoverCount(spans, layer)
  {
    if spans != [] {
      NonEmptyFacts(spans[1..], layer);
      if spans[0].range.NonEmpty() {
        assert ([spans[0]] + NonEmptySpans(spans[1..]))[1..] == NonEmptySpans(spans[1..]);
      } else {
        assert NonEmptySpans(spans) == NonEmptySpans(spans[1..]);
      }
    }
  }

  /** Every layer of lo .. hi is on exactly one span and no other layer is on any. */
  ghost predicate ExactCover(spans: Spans, lo: int, hi: int) {
    forall layer :: CoverCount(spans, layer) == if lo <= layer < hi then 1 else 0
  }

  lemma {:induction false} CountedIsThere(spans: Spans, layer: int)
    ensures CoverCount(spans, layer) > 0 <==> exists i :: 0 <= i < |spans| && spans[i].range.Contains(layer)
  {
    if spans != [] {
      CountedIsThere(spans[1..], layer);
      if i :| 0 <= i < |spans[1..]| && spans[1..][i].range.Contains(layer) {
        assert spans[i + 1].range.Contains(layer);
      }
      if i :| 0 < i < |spans| && spans[i].range.Contains(layer) {
        assert spans[1..][i - 1].range.Contains(layer);
      }
    }
  }

  lemma {:induction false} ChainedIsExactCover(spans: Spans, expected: int, total: int)
    requires AllNonEmpty(spans) && Chained(spans, expected, total)
    ensures expected <= total && ExactCover(spans, expected, total)
  {
    if spans != [] {
      ChainedIsExactCover(spans[1..], spans[0].range.end, total);
    }
  }

  lemma {:induction false} ExactCoverIsChained(spans: Spans, expected: int, total: int)
    requires AllNonEmpty(spans) && SortedByStart(spans)
    requires expected <= total && ExactCover(spans, expected, total)
    ensures Chained(spans, expected, total)
  {
    if spans == [] {
      assert CoverCount(spans, expected) == 0;
    } else {
      var first := spans[0].range;
      assert CoverCount(spans, first.start) > 0;
      assert expected <= first.start < total;
      assert CoverCount(spans, expected) == 1;
      CountedIsThere(spans, expected);
      assert CoverCount(spans, first.end - 1) > 0;
      forall layer ensures CoverCount(spans[1..], layer) == if first.end <= layer < total then 1 else 0 {
        assert CoverCount(spans, layer) == if expected <= layer < total then 1 else 0;
      }
      ExactCoverIsChained(spans[1..], first.end, total);
    }
  }

  /** is_complete answers yes exactly when every layer of 0 .. total is on exactly one span and no span
      reaches outside: for any spans at all, sorted or not, overlapping, empty or out of bounds. */
  lemma IsCompleteIff(spans: Spans, total: int)
    requires total >= 1
    ensures IsComplete(spans, total) <==> ExactCover(spans, 0, total)
  {
    var online := NonEmptySpans(spans);
    var sorted := SortByStart(online);
    forall layer ensures CoverCount(sorted, layer) == CoverCount(spans, layer) {
      NonEmptyFacts(spans, layer);
      SortFacts(online, layer);
    }
    NonEmptyFacts(spans, 0);
    SortFacts(online, 0);
    assert AllNonEmpty(sorted) by {
      forall i | 0 <= i < |sorted| ensures sorted[i].range.NonEmpty() {
        assert sorted[i] in sorted && sorted[i] in online;
      }
    }
    if Chained(sorted, 0, total) {
      ChainedIsExactCover(sorted, 0, total);
      forall layer ensures CoverCount(spans, layer) == if 0 <= layer < total then 1 else 0 {
        assert CoverCount(sorted, layer) == CoverCount(spans, layer);
      }
    }
    if ExactCover(spans, 0, total) {
      assert ExactCover(sorted, 0, total);
      ExactCoverIsChained(sorted, 0, total);
      assert CoverCount(online, 0) == CoverCount(spans, 0) == 1;
    }
  }

  // ---- the manifest of a registry

  function SpanOfHost(h: Host): LayerSpan { LayerSpan(h.id, h.role, h.range) }

  function OnlineSpans(hosts: Hosts): Spans {
    if hosts == [] then []
    else (if hosts[0].status == Online then [SpanOfHost(hosts[0])] else []) + OnlineSpans(hosts[1..])
  }

  function BuildManifest(hosts: Hosts): Spans { SortByStart(OnlineSpans(hosts)) }

  /** Some online host has this id, role and range. */
  ghost predicate IsOnlineSpan(hosts: Hosts, s: LayerSpan) {
    exists i :: && 0 <= i < |hosts| && hosts[i].status == Online
                && s.hostId == hosts[i].id && s.role == hosts[i].role && s.range == hosts[i].range
  }

  lemma ManifestExactly(hosts: Hosts)
    ensures SortedByStart(BuildManifest(hosts))
    ensures forall s :: s in BuildManifest(hosts) <==> IsOnlineSpan(hosts, s)
  {
    SortFacts(OnlineSpans(hosts), 0);
    forall s ensures s in BuildManifest(hosts) <==> IsOnlineSpan(hosts, s) {
      OnlineSpanIsHost(hosts, s);
      if i :| 0 <= i < |hosts| && hosts[i].status == Online && s == SpanOfHost(hosts[i]) {
        assert s.hostId == hosts[i].id;
      }
      if i :| && 0 <= i < |hosts| && hosts[i].status == Online
              && s.hostId == hosts[i].id && s.role == hosts[i].role && s.range == hosts[i].range {
        assert s == SpanOfHost(hosts[i]);
      }
    }
  }

  method MakeManifest(hosts: Hosts) returns (spans: Spans)
    ensures spans == BuildManifest(hosts)
    ensures SortedByStart(spans)
    ensures forall s :: s in spans <==> IsOnlineSpan(hosts, s)
  {
    ManifestExactly(hosts);
    hide SortByStart, SortedByStart, IsOnlineSpan;
    spans := [];
    for i := 0 to |hosts|
      invariant spans + OnlineSpans(hosts[i..]) == OnlineSpans(hosts)
    {
      assert hosts[i..][1..] == hosts[i + 1..];
      if hosts[i].status != Online {
        continue;
      }
      spans := spans + [SpanOfHost(hosts[i])];
    }
    assert spans + OnlineSpans(hosts[|hosts|..]) == spans;
    spans := SortByStart(spans);
  }

  lemma {:induction false} OnlineSpanIsHost(hosts: Hosts, s: LayerSpan)
    ensures s in OnlineSpans(hosts) <==>
              exists i :: 0 <= i < |hosts| && hosts[i].status == Online && s == SpanOfHost(hosts[i])
  {
    if hosts != [] {
      OnlineSpanIsHost(hosts[1..], s);
      if i :| 0 <= i < |hosts[1..]| && hosts[1..][i].status == Online && s == SpanOfHost(hosts[1..][i]) {
        assert s == SpanOfHost(hosts[i + 1]);
      }
      if i :| 0 < i < |hosts| && hosts[i].status == Online && s == SpanOfHost(hosts[i]) {
        assert s == SpanOfHost(hosts[1..][i - 1]);
      }
    }
  }

  /** Disjoint online ranges put every layer on at most one span, and on one exactly if it is covered. */
  lemma {:induction false} OnlineCount(hosts: Hosts, layer: int)
    requires OnlineDisjoint(hosts)
    requires forall i :: 0 <= i < |hosts| ==> hosts[i].range.NonEmpty()
    ensures CoverCount(OnlineSpans(hosts), layer) == if Covered(hosts, layer) then 1 else 0
  {
    if hosts == [] {
      assert !Covered(hosts, layer);
    } else {
      var rest := hosts[1..];
      OnlineCount(rest, layer);
      assert forall i :: 0 <= i < |rest| ==> rest[i] == hosts[i + 1];
      if hosts[0].status == Online {
        assert ([SpanOfHost(hosts[0])] + OnlineSpans(rest))[1..] == OnlineSpans(rest);
      } else {
        assert OnlineSpans(hosts) == OnlineSpans(rest);
      }
      if Covered(rest, layer) {
        var i :| 0 <= i < |rest| && rest[i].status == Online && rest[i].range.Contains(layer);
        assert hosts[i + 1].range.Contains(layer);
        if hosts[0].status == Online {
          assert hosts[0].range.Disjoint(hosts[i + 1].range);
        }
      }
      if Covered(hosts, layer) {
        var i :| 0 <= i < |hosts| && hosts[i].status == Online && hosts[i].range.Contains(layer);
        if i > 0 {
          assert rest[i - 1].range.Contains(layer);
        }
      }
    }
  }

  /** For every registry that keeps its invariant, is_complete of the manifest says exactly whether
      every layer has an online host. */
  lemma ManifestCompleteIffCovered(hosts: Hosts, total: int)
    requires Inv(hosts, total) && total >= 1
    ensures IsComplete(BuildManifest(hosts), total) <==> Complete(hosts, total)
  {
    var m := BuildManifest(hosts);
    IsCompleteIff(m, total);
    forall layer ensures CoverCount(m, layer) == if Covered(hosts, layer) then 1 else 0 {
      SortFacts(OnlineSpans(hosts), layer);
      OnlineCount(hosts, layer);
    }
    if Complete(hosts, total) {
      forall layer ensures CoverCount(m, layer) == if 0 <= layer < total then 1 else 0 {
        if Covered(hosts, layer) {
          var i :| 0 <= i < |hosts| && hosts[i].status == Online && hosts[i].range.Contains(layer);
          assert 0 <= layer < total;
        }
      }
    } else {
      var layer :| 0 <= layer < total && !Covered(hosts, layer);
      assert CoverCount(m, layer) == 0;
    }
  }

  // ---- the tail contributor

  /** First contributor span with the highest end. */
  function TailContributor(spans: Spans): (r: Option<LayerSpan>)
    ensures r.Some? ==> r.value in spans && r.value.role == Contributor
    ensures forall s :: s in spans && s.role == Contributor ==> r.Some? && s.range.end <= r.value.range.end
    ensures r.Some? ==>
              exists k :: && 0 <= k < |spans| && spans[k] == r.value
                          && forall i :: 0 <= i < k && spans[i].role == Contributor ==>
                               spans[i].range.end < r.value.range.end
  {
    if spans == [] then None
    else
      var last := spans[|spans| - 1];
      var before := TailContributor(spans[..|spans| - 1]);
      assert spans == spans[..|spans| - 1] + [last];
      if last.role == Contributor && (before.None? || before.value.range.end < last.range.end)
      then Some(last) else before
  }

  lemma {:induction false} LastOfChain(spans: Spans, expected: int, total: int)
    requires AllNonEmpty(spans) && Chained(spans, expected, total) && spans != []
    ensures spans[|spans| - 1].range.end == total
    ensures forall i :: 0 <= i < |spans| - 1 ==> spans[i].range.end < total
    ensures forall i :: 0 < i < |spans| ==> spans[i].range.start > expected
  {
    if |spans| > 1 {
      LastOfChain(spans[1..], spans[0].range.end, total);
      assert spans[|spans| - 1] == spans[1..][|spans| - 2];
      forall i | 0 <= i < |spans| - 1 ensures spans[i].range.end < total {
        if i == 0 {
          ChainedIsExactCover(spans[1..], spans[0].range.end, total);
          assert Chained(spans[1..], spans[0].range.end, total) && spans[1].range.NonEmpty();
          ChainedIsExactCover(spans[1..][1..], spans[1].range.end, total);
        } else {
          assert spans[i] == spans[1..][i - 1];
        }
      }
      forall i | 0 < i < |spans| ensures spans[i].range.start > expected {
        if i > 1 {
          assert spans[i] == spans[1..][i - 1];
        }
      }
    }
  }

  lemma {:induction false} NonEmptyKeepsAll(spans: Spans)
    requires AllNonEmpty(spans)
    ensures NonEmptySpans(spans) == spans
  {
    if spans != [] {
      NonEmptyKeepsAll(spans[1..]);
    }
  }

  lemma {:induction false} SortOfSorted(spans: Spans)
    requires SortedByStart(spans)
    ensures SortByStart(spans) == spans
  {
    if spans != [] {
      SortOfSorted(spans[1..]);
    }
  }

  /** The manifest of a registry is already in order, free of empty spans, and, when complete, a chain
      from layer 0 to the last. */
  lemma ManifestIsChain(hosts: Hosts, total: int)
    requires Inv(hosts, total) && total >= 1 && IsComplete(BuildManifest(hosts), total)
    ensures var m := BuildManifest(hosts);
            AllNonEmpty(m) && SortByStart(m) == m && m != [] && Chained(m, 0, total)
  {
    var m := BuildManifest(hosts);
    SortFacts(OnlineSpans(hosts), 0);
    forall i | 0 <= i < |m| ensures m[i].range.NonEmpty() {
      assert m[i] in OnlineSpans(hosts);
      OnlineSpanIsHost(hosts, m[i]);
    }
    NonEmptyKeepsAll(m);
    SortOfSorted(m);
  }

  lemma ManifestHas(hosts: Hosts, s: LayerSpan)
    ensures s in BuildManifest(hosts) <==>
              exists i :: 0 <= i < |hosts| && hosts[i].status == Online && s == SpanOfHost(hosts[i])
  {
    SortFacts(OnlineSpans(hosts), 0);
    OnlineSpanIsHost(hosts, s);
  }

  lemma LastIsContributor(hosts: Hosts, total: int, c: nat)
    requires Inv(hosts, total) && total >= 1
    requires IsComplete(BuildManifest(hosts), total)
    requires c < |hosts| && hosts[c].status == Online && hosts[c].role == Contributor
    ensures var m := BuildManifest(hosts);
            && m != [] && m[|m| - 1].role == Contributor && m[|m| - 1].range.end == total
            && forall i :: 0 <= i < |m| - 1 ==> m[i].range.end < total
  {
    var m := BuildManifest(hosts);
    var last := m[|m| - 1];
    ManifestIsChain(hosts, total);
    LastOfChain(m, 0, total);
    ManifestHas(hosts, SpanOfHost(hosts[c]));
    ManifestHas(hosts, last);
    var j :| 0 <= j < |hosts| && hosts[j].status == Online && last == SpanOfHost(hosts[j]);
    if |m| > 1 {
      assert last.range.start > 0;
      assert j > 0;
    }
  }

  /** In a complete manifest with a contributor, the tail contributor is the last span of the layer
      order: the mother, who sits at layer 0, is never the tail. */
  lemma TailIsLast(hosts: Hosts, total: int)
    requires Inv(hosts, total) && total >= 1
    requires IsComplete(BuildManifest(hosts), total)
    requires exists i :: 0 <= i < |hosts| && hosts[i].status == Online && hosts[i].role == Contributor
    ensures var m := BuildManifest(hosts);
            m != [] && TailContributor(m) == Some(m[|m| - 1]) && m[|m| - 1].range.end == total
  {
    var m := BuildManifest(hosts);
    var c :| 0 <= c < |hosts| && hosts[c].status == Online && hosts[c].role == Contributor;
    LastIsContributor(hosts, total, c);
    var last := m[|m| - 1];
    assert last in m;
    var tail := TailContributor(m).value;
    var t :| 0 <= t < |m| && m[t] == tail;
    assert tail.range.end >= total;
  }
}

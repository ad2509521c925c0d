/** Distributed generation over the layer map: shard_manager/http_chain.py and the local passes of
    shard_manager/local_runner.py, against a single node that runs all layers itself. */
module HttpChain {
  import opened Options
  import opened Registry
  import opened RegistryInvariant
  import opened Manifest

  /** A language model with its transformer layers as uninterpreted functions. sample stands for the
      repetition penalty, the temperature and the random draw of one step. */
  datatype Model<!H, !L> = Model(
    total: nat,
    embed: seq<int> -> H,
    layer: (int, H) -> H,
    norm: H -> H,
    head: H -> L,
    sample: (nat, L, seq<int>) -> int,
    eos: int)

  /** Layers lo .. hi applied in order. */
  function RunLayers<H, L>(m: Model<H, L>, lo: int, hi: int, hidden: H): H
    decreases hi - lo
  {
    if lo >= hi then hidden else RunLayers(m, lo + 1, hi, m.layer(lo, hidden))
  }

  lemma {:induction false} RunLayersSplit<H, L>(m: Model<H, L>, lo: int, mid: int, hi: int, hidden: H)
    requires lo <= mid <= hi
    ensures RunLayers(m, lo, hi, hidden) == RunLayers(m, mid, hi, RunLayers(m, lo, mid, hidden))
    decreases mid - lo
  {
    if lo < mid {
      RunLayersSplit(m, lo + 1, mid, hi, m.layer(lo, hidden));
    }
  }

  /** Layer by layer from x to y: xs[k] are the states in front of layer lo + k. */
  ghost predicate RunsThrough<H(!new), L>(m: Model<H, L>, lo: int, hi: int, x: H, y: H) {
    if lo >= hi then y == x
    else
      exists xs: seq<H> ::
        && |xs| == hi - lo + 1 && xs[0] == x && xs[hi - lo] == y
        && forall k :: 0 <= k < hi - lo ==> xs[k + 1] == m.layer(lo + k, xs[k])
  }

  lemma {:induction false} LayersAreTraced<H(!new), L>(m: Model<H, L>, lo: int, hi: int, hidden: H)
    ensures RunsThrough(m, lo, hi, hidden, RunLayers(m, lo, hi, hidden))
    decreases hi - lo
  {
    if lo < hi {
      var next := m.layer(lo, hidden);
      LayersAreTraced(m, lo + 1, hi, next);
      var rest: seq<H>;
      if lo + 1 >= hi {
        rest := [next];
      } else {
        rest :| && |rest| == hi - lo && rest[0] == next && rest[hi - lo - 1] == RunLayers(m, lo + 1, hi, next)
                && forall k :: 0 <= k < hi - lo - 1 ==> rest[k + 1] == m.layer(lo + 1 + k, rest[k]);
      }
      var xs := [hidden] + rest;
      forall k | 0 <= k < hi - lo ensures xs[k + 1] == m.layer(lo + k, xs[k]) {
        if k > 0 {
          assert rest[k - 1 + 1] == m.layer(lo + 1 + (k - 1), rest[k - 1]) && lo + 1 + (k - 1) == lo + k;
        }
      }
      assert xs[hi - lo] == RunLayers(m, lo, hi, hidden);
    }
  }

  // ---- one node

  function NextToken<H, L>(m: Model<H, L>, ids: seq<int>, generated: seq<int>): int {
    m.sample(|generated|, m.head(m.norm(RunLayers(m, 0, m.total, m.embed(ids + generated)))), generated)
  }

  /** What a node that holds the whole model generates: up to budget more tokens, ending with eos. */
  function GenerateAlone<H, L>(m: Model<H, L>, ids: seq<int>, generated: seq<int>, budget: nat): seq<int>
    decreases budget
  {
    if budget == 0 then generated
    else
      var next := NextToken(m, ids, generated);
      if next == m.eos then generated + [next] else GenerateAlone(m, ids, generated + [next], budget - 1)
  }

  // ---- the local passes

  /** forward_tail: this node's layers applied to hidden states. */
  method ForwardTail<H(!new), L>(m: Model<H, L>, blocks: Range, hidden: H) returns (r: H)
    ensures r == RunLayers(m, blocks.start, blocks.end, hidden)
    ensures RunsThrough(m, blocks.start, blocks.end, hidden, r)
  {
    LayersAreTraced(m, blocks.start, blocks.end, hidden);
    hide RunsThrough;
    r := hidden;
    var idx := blocks.start;
    while idx < blocks.end
      invariant RunLayers(m, idx, blocks.end, r) == RunLayers(m, blocks.start, blocks.end, hidden)
    {
      r := m.layer(idx, r);
      idx := idx + 1;
    }
  }

  /** forward_prefix: the embedding, then this node's layers. */
  method ForwardPrefix<H(!new), L>(m: Model<H, L>, blocks: Range, ids: seq<int>) returns (r: H)
    ensures r == RunLayers(m, blocks.start, blocks.end, m.embed(ids))
    ensures RunsThrough(m, blocks.start, blocks.end, m.embed(ids), r)
  {
    r := ForwardTail(m, blocks, m.embed(ids));
  }

  predicate IsTailHost<H, L>(m: Model<H, L>, blocks: Range) { blocks.end >= m.total }

  function LogitsFromHidden<H, L>(m: Model<H, L>, blocks: Range, hidden: H): L {
    if IsTailHost(m, blocks) then m.head(m.norm(hidden)) else m.head(hidden)
  }

  // ---- the chain

  /** The coverage sweep: spans that follow one another from `expected`; a total of 0 is not compared. */
  predicate Sweep(spans: Spans, expected: int, total: int) {
    if spans == [] then total == 0 || expected == total
    else spans[0].range.start == expected && Sweep(spans[1..], spans[0].range.end, total)
  }

  predicate ChainValid(spans: Spans, total: int) {
    spans != [] && Sweep(spans, 0, total)
  }

  /** Consecutive spans from first to last: no more and no less than that each begins where the one in front of it
      ends. */
  lemma {:induction false} SweepExactly(spans: Spans, expected: int, total: int)
    requires spans != []
    ensures Sweep(spans, expected, total) <==>
              && spans[0].range.start == expected && (total == 0 || spans[|spans| - 1].range.end == total)
              && forall i :: 0 < i < |spans| ==> spans[i].range.start == spans[i - 1].range.end
  {
    if |spans| > 1 {
      var rest := spans[1..];
      SweepExactly(rest, spans[0].range.end, total);
      assert forall i :: 0 <= i < |rest| ==> rest[i] == spans[i + 1];
      if forall i :: 0 < i < |rest| ==> rest[i].range.start == rest[i - 1].range.end {
        forall i | 1 < i < |spans| ensures spans[i].range.start == spans[i - 1].range.end {
          assert spans[i] == rest[i - 1] && spans[i - 1] == rest[i - 1 - 1];
        }
      }
    }
  }

  method ValidateChainCoverage(spans: Spans, total: int) returns (ok: bool)
    ensures ok == ChainValid(spans, total)
    ensures ok <==>
              && spans != [] && spans[0].range.start == 0 && (total == 0 || spans[|spans| - 1].range.end == total)
              && forall i :: 0 < i < |spans| ==> spans[i].range.start == spans[i - 1].range.end
  {
    if spans != [] {
      SweepExactly(spans, 0, total);
    }
    if spans == [] {
      return false;
    }
    var expected := 0;
    for i := 0 to |spans|
      invariant Sweep(spans, 0, total) == Sweep(spans[i..], expected, total)
    {
      if spans[i].range.start != expected {
        return false;
      }
      expected := spans[i].range.end;
    }
    return total == 0 || expected == total;
  }

  /** Hidden states after every hop of the chain. */
  function RunSpans<H, L>(m: Model<H, L>, spans: Spans, hidden: H): H {
    if spans == [] then hidden
    else RunSpans(m, spans[1..], RunLayers(m, spans[0].range.start, spans[0].range.end, hidden))
  }

  lemma {:induction false} RunSpansAppend<H, L>(m: Model<H, L>, spans: Spans, s: LayerSpan, hidden: H)
    ensures RunSpans(m, spans + [s], hidden) == RunLayers(m, s.range.start, s.range.end, RunSpans(m, spans, hidden))
  {
    if spans == [] {
      assert spans + [s] == [s];
    } else {
      assert (spans + [s])[1..] == spans[1..] + [s];
      RunSpansAppend(m, spans[1..], s, RunLayers(m, spans[0].range.start, spans[0].range.end, hidden));
    }
  }

  ghost predicate NotReversed(spans: Spans) {
    forall i :: 0 <= i < |spans| ==> spans[i].range.start <= spans[i].range.end
  }

  /** Spans that pass the sweep apply every layer from `expected` to the end of the last span exactly once,
      in order. */
  lemma {:induction false} SweepRunsAll<H, L>(m: Model<H, L>, spans: Spans, expected: int, total: int, hidden: H)
    requires spans != [] && NotReversed(spans) && Sweep(spans, expected, total)
    ensures expected <= spans[|spans| - 1].range.end
    ensures RunSpans(m, spans, hidden) == RunLayers(m, expected, spans[|spans| - 1].range.end, hidden)
  {
    var r := spans[0].range;
    if |spans| > 1 {
      SweepRunsAll(m, spans[1..], r.end, total, RunLayers(m, r.start, r.end, hidden));
      RunLayersSplit(m, expected, r.end, spans[|spans| - 1].range.end, hidden);
    } else {
      assert RunSpans(m, spans[1..], RunLayers(m, r.start, r.end, hidden)) == RunLayers(m, r.start, r.end, hidden);
    }
  }

  lemma {:induction false} LastEndIsTotal(spans: Spans, expected: int, total: int)
    requires spans != [] && Sweep(spans, expected, total) && total != 0
    ensures spans[|spans| - 1].range.end == total
  {
    if |spans| > 1 {
      LastEndIsTotal(spans[1..], spans[0].range.end, total);
    }
  }

  /** Among sorted spans that pass the sweep, only the last can be reversed. */
  lemma {:induction false} OnlyLastReversed(spans: Spans, expected: int, total: int)
    requires spans != [] && SortedByStart(spans) && Sweep(spans, expected, total)
    requires spans[|spans| - 1].range.start <= spans[|spans| - 1].range.end
    ensures NotReversed(spans)
  {
    if |spans| > 1 {
      OnlyLastReversed(spans[1..], spans[0].range.end, total);
      assert spans[1].range.start == spans[0].range.end;
      assert forall i :: 0 < i < |spans| ==> spans[i] == spans[1..][i - 1];
    }
  }

  /** The hidden states of one step: the first upstream host embeds and runs its layers, the others
      continue, and the local tail finishes. hop(i) says whether the call to upstream host i succeeds. */
  method HiddenStates<H(!new), L>(m: Model<H, L>, spans: Spans, ids: seq<int>, hop: nat -> bool) returns (r: Option<H>)
    requires spans != []
    ensures r.Some? <==> forall i :: 0 <= i < |spans| - 1 ==> hop(i)
    ensures r.Some? ==> r.value == RunSpans(m, spans, m.embed(ids))
  {
    hide RunsThrough, RunLayers;
    var tail, upstream := spans[|spans| - 1], spans[..|spans| - 1];
    assert spans == upstream + [tail];
    RunSpansAppend(m, upstream, tail, m.embed(ids));
    if upstream == [] {
      var local := ForwardPrefix(m, tail.range, ids);
      return Some(local);
    }
    if !hop(0) {
      return None;
    }
    var hidden := ForwardPrefix(m, upstream[0].range, ids);
    assert upstream[..1] == [upstream[0]];
    var i := 1;
    while i < |upstream|
      invariant 1 <= i <= |upstream|
      invariant forall j :: 0 <= j < i ==> hop(j)
      invariant hidden == RunSpans(m, upstream[..i], m.embed(ids))
    {
      if !hop(i) {
        return None;
      }
      RunSpansAppend(m, upstream[..i], upstream[i], m.embed(ids));
      assert upstream[..i + 1] == upstream[..i] + [upstream[i]];
      hidden := ForwardTail(m, upstream[i].range, hidden);
      i := i + 1;
    }
    assert upstream[..|upstream|] == upstream;
    hidden := ForwardTail(m, tail.range, hidden);
    return Some(hidden);
  }

  /** max(1, min(max_tokens, 512)) */
  function TokenBudget(maxTokens: int): nat {
    if maxTokens < 1 then 1 else if maxTokens > 512 then 512 else maxTokens
  }

  /** What a chain of spans makes of the tokens so far: one draw from the logits behind the last span. */
  ghost predicate DrawnInTurn<H, L>(m: Model<H, L>, spans: Spans, local: Range, ids: seq<int>, tokens: seq<int>) {
    forall i: nat :: i < |tokens| ==>
      var hidden := RunSpans(m, spans, m.embed(ids + tokens[..i]));
      tokens[i] == m.sample(i, m.head(if local.end >= m.total then m.norm(hidden) else hidden), tokens[..i])
  }

  /** The same for a node that runs all layers itself. */
  ghost predicate DrawnAlone<H, L>(m: Model<H, L>, ids: seq<int>, tokens: seq<int>) {
    forall i: nat :: i < |tokens| ==>
      tokens[i] == m.sample(i, m.head(m.norm(RunLayers(m, 0, m.total, m.embed(ids + tokens[..i])))), tokens[..i])
  }

  /** Up to max_tokens tokens, but at least 1 and at most 512; an eos token ends them. */
  ghost predicate RightLength<H, L>(m: Model<H, L>, maxTokens: int, tokens: seq<int>) {
    && 1 <= |tokens| <= 512 && (maxTokens >= 1 ==> |tokens| <= maxTokens)
    && (forall i :: 0 <= i < |tokens| - 1 ==> tokens[i] != m.eos)
    && (tokens[|tokens| - 1] == m.eos || |tokens| == 512 || |tokens| == (if maxTokens < 1 then 1 else maxTokens))
    && (maxTokens < 1 ==> |tokens| == 1)
  }

  lemma NothingDrawn<H, L>(m: Model<H, L>, spans: Spans, local: Range, ids: seq<int>)
    ensures DrawnInTurn(m, spans, local, ids, []) && DrawnAlone(m, ids, [])
  {
  }

  lemma DrawOneMore<H, L>(m: Model<H, L>, spans: Spans, local: Range, ids: seq<int>, tokens: seq<int>, next: int)
    requires DrawnInTurn(m, spans, local, ids, tokens)
    ensures var hidden := RunSpans(m, spans, m.embed(ids + tokens));
            next == m.sample(|tokens|, LogitsFromHidden(m, local, hidden), tokens)
            ==> DrawnInTurn(m, spans, local, ids, tokens + [next])
    ensures DrawnAlone(m, ids, tokens) && next == NextToken(m, ids, tokens) ==> DrawnAlone(m, ids, tokens + [next])
  {
    hide RunSpans, RunLayers;
    var longer := tokens + [next];
    assert longer[..|tokens|] == tokens;
    assert forall i :: 0 <= i < |tokens| ==> longer[i] == tokens[i] && longer[..i] == tokens[..i];
  }

  /** HttpChainInference.generate, for a manifest with this total of layers (0 if it names none). It answers
      only if the manifest is a gapless chain and this node holds its tail, and then it does answer if no
      hop fails. If this node's range is not reversed and ends with the model, the tokens that come out are
      those that a single node with all layers generates, whatever hops fail. hop(step, i) is the fate of
      the call to upstream host i in that step. */
  method Generate<H(!new), L>(m: Model<H, L>, manifest: Spans, total: int, local: Range, ids: seq<int>, maxTokens: int,
                        hop: (nat, nat) -> bool)
    returns (r: Option<seq<int>>)
    ensures r.Some? && local.start <= local.end == m.total ==>
              r.value == GenerateAlone(m, ids, [], TokenBudget(maxTokens))
    ensures r.Some? && local.start <= local.end == m.total ==> DrawnAlone(m, ids, r.value)
    ensures r.Some? ==> RightLength(m, maxTokens, r.value)
    ensures r.Some? ==> DrawnInTurn(m, SortByStart(manifest), local, ids, r.value)
    ensures r.Some? && total != 0 ==> local.end == total
    ensures var spans := SortByStart(manifest);
            && (r.Some? ==> ChainValid(spans, total) && spans[|spans| - 1].range == local)
            && (ChainValid(spans, total) && spans[|spans| - 1].range == local && (forall s, i :: hop(s, i)) ==> r.Some?)
  {
    hide RunLayers, RunSpans, Sweep, SortByStart, DrawnInTurn, DrawnAlone, RunsThrough;
    var spans := SortByStart(manifest);
    SortFacts(manifest, 0);
    var ok := ValidateChainCoverage(spans, total);
    if !ok || spans[|spans| - 1].range != local {
      return None;
    }
    if total != 0 {
      LastEndIsTotal(spans, 0, total);
    }
    ghost var whole := local.start <= local.end == m.total;
    if whole {
      OnlyLastReversed(spans, 0, total);
    }
    var generated: seq<int> := [];
    NothingDrawn(m, spans, local, ids);
    var budget := TokenBudget(maxTokens);
    for step: nat := 0 to budget
      invariant |generated| == step && m.eos !in generated
      invariant DrawnInTurn(m, spans, local, ids, generated)
      invariant whole ==> DrawnAlone(m, ids, generated)
      invariant whole ==> GenerateAlone(m, ids, generated, budget - step) == GenerateAlone(m, ids, [], budget)
    {
      var hidden := HiddenStates(m, spans, ids + generated, (i: nat) => hop(step, i));
      if hidden.None? {
        return None;
      }
      var next := m.sample(step, LogitsFromHidden(m, local, hidden.value), generated);
      if whole {
        SweepRunsAll(m, spans, 0, total, m.embed(ids + generated));
        assert next == NextToken(m, ids, generated);
      }
      DrawOneMore(m, spans, local, ids, generated, next);
      generated := generated + [next];
      if next == m.eos {
        return Some(generated);
      }
    }
    return Some(generated);
  }

  lemma {:induction false} ChainedSweeps(spans: Spans, expected: int, total: int)
    requires Chained(spans, expected, total)
    ensures Sweep(spans, expected, total)
  {
    if spans != [] {
      ChainedSweeps(spans[1..], spans[0].range.end, total);
    }
  }

  /** A complete manifest of any registry state is a valid chain, and the tail contributor the
      orchestrator routes to is the host that generate accepts as its tail. */
  lemma RegistryChainIsValid(hosts: Hosts, total: int)
    requires Inv(hosts, total) && total >= 1
    requires IsComplete(BuildManifest(hosts), total)
    ensures var m := BuildManifest(hosts);
            && SortByStart(m) == m && ChainValid(m, total)
            && m[|m| - 1].range.start <= m[|m| - 1].range.end == total
            && (TailContributor(m).Some? ==> m[|m| - 1].range == TailContributor(m).value.range)
  {
    var m := BuildManifest(hosts);
    ManifestIsChain(hosts, total);
    ChainedSweeps(m, 0, total);
    LastEndIsTotal(m, 0, total);
    if TailContributor(m).Some? {
      ManifestHas(hosts, TailContributor(m).value);
      TailIsLast(hosts, total);
    }
  }
}

/** The imperative side of petals/server/block_selection.py: the throughput array and the spans are
    edited in place, and the local search runs until nobody moves. */
module Rebalancing {
  import opened Options
  import opened Leximin
  import opened BlockSelection
  import opened Announcements

  /** throughputs[lo:hi] += x */
  method AddSlice(a: array<real>, lo: nat, hi: nat, x: real)
    requires lo <= hi <= a.Length
    modifies a
    ensures a[..] == AddRange(old(a[..]), lo, hi, x)
  {
    forall i | lo <= i < hi {
      a[i] := a[i] + x;
    }
  }

  lemma {:induction false} LoadAppend(servers: seq<Server>, s: Server, block: nat)
    ensures Load(servers + [s], block) == Load(servers, block) + Load([s], block)
  {
    if servers == [] {
      assert servers + [s] == [s];
    } else {
      assert (servers + [s])[1..] == servers[1..] + [s];
      LoadAppend(servers[1..], s, block);
    }
  }

  lemma ThroughputsAppend(servers: seq<Server>, s: Server, total: nat)
    ensures Throughputs(servers + [s], total) == AddRange(Throughputs(servers, total), s.start, s.End(), s.throughput)
  {
    forall i | 0 <= i < total
      ensures Load(servers + [s], i) == Load(servers, i) + if s.start <= i < s.End() then s.throughput else 0.0
    {
      LoadAppend(servers, s, i);
      assert Load([s][1..], i) == 0.0;
    }
  }

  method ComputeThroughputs(servers: seq<Server>, total: nat) returns (a: array<real>)
    requires InRange(servers, total)
    ensures fresh(a) && a[..] == Throughputs(servers, total)
  {
    a := new real[total](_ => 0.0);
    for k := 0 to |servers|
      invariant a[..] == Throughputs(servers[..k], total)
    {
      ThroughputsAppend(servers[..k], servers[k], total);
      assert servers[..k + 1] == servers[..k] + [servers[k]];
      AddSlice(a, servers[k].start, servers[k].End(), servers[k].throughput);
    }
    assert servers[..|servers|] == servers;
  }

  /** Throughput t over n blocks serves the swarm strictly better at start x than at start y. */
  ghost predicate BetterHosted(v: seq<real>, n: nat, x: nat, y: nat, t: real) {
    Worse(AddRange(v, y, y + n, t), AddRange(v, x, x + n, t))
  }

  /** The window a new server should host, given the placed servers. None stands for the ValueError of
      min() over no options, when more blocks are asked for than exist. */
  method ChooseWindow(servers: seq<Server>, total: nat, numBlocks: nat) returns (start: Option<nat>)
    requires InRange(servers, total)
    ensures start.Some? <==> numBlocks <= total
    ensures start.Some? ==>
              && start.value + numBlocks <= total
              && OptimalStart(Throughputs(servers, total), numBlocks, start.value)
              && FirstOfPoorest(Throughputs(servers, total), numBlocks, start.value)
  {
    if numBlocks > total {
      return None;
    }
    hide OptimalStart, FirstOfPoorest;
    var a := ComputeThroughputs(servers, total);
    start := Some(BestStart(a[..], numBlocks));
    BestStartIsBest(a[..], numBlocks);
  }

  lemma BestStartIsBest(v: seq<real>, n: nat)
    requires n <= |v|
    ensures OptimalStart(v, n, BestStart(v, n)) && FirstOfPoorest(v, n, BestStart(v, n))
  {
    var start := BestStart(v, n);
    BestStartIsLeast(v, n);
    forall other: nat, t: real | other + n <= |v| && t > 0.0 ensures !BetterHosted(v, n, other, start, t) {
      BestStartIsOptimal(v, n, other, t);
    }
  }

  /** Whatever positive throughput is added over n blocks, no other start leaves the swarm with a larger
      sorted throughput vector. */
  ghost predicate OptimalStart(v: seq<real>, n: nat, start: nat) {
    forall other: nat, t: real :: other + n <= |v| && t > 0.0 ==> !BetterHosted(v, n, other, start, t)
  }

  /** No window is more poorly served, and every earlier one is strictly better served. */
  ghost predicate FirstOfPoorest(v: seq<real>, n: nat, start: nat)
    requires start + n <= |v|
  {
    && (forall i :: 0 <= i <= |v| - n ==> !Worse(Window(v, i, n), Window(v, start, n)))
    && (forall i :: 0 <= i < start ==> Worse(Window(v, start, n), Window(v, i, n)))
  }

  // ---- the servers that the announcements describe

  /** Block number `block` lies in the slice start .. end of an array of n blocks. */
  predicate Reaches(span: RemoteSpan, n: nat, block: nat) {
    span.start <= block && block < (if span.end < 0 then span.end + n else span.end)
  }

  /** The blocks of the array of n blocks that the slice start .. end of a span denotes: a negative end counts
      from the end of the array, and a reversed slice is empty. */
  function PlacedServer(span: RemoteSpan, n: nat): (r: Server)
    requires 0 <= span.start
    ensures r.End() <= n && r.throughput == span.info.throughput
    ensures span.start <= span.end <= n ==> r.start == span.start && r.End() == span.end
    ensures forall block: nat :: block < n ==> (r.start <= block < r.End() <==> Reaches(span, n, block))
  {
    var lo := Min(span.start, n);
    var hi := if span.end < 0 then Max(span.end + n, 0) else Min(span.end, n);
    Server(lo, Max(hi - lo, 0), span.info.throughput)
  }

  /** No peer that counts ends up with a reversed span. */
  ghost predicate Wellformed(infos: ModuleInfos, offset: nat) {
    forall p :: var span := SpanOf(infos, offset, Joining, p);
      span.Some? ==> span.value.start <= span.value.end
  }

  /** Announcements as servers make them are wellformed: the shortcut fields include the block they are
      announced under. */
  lemma HonestIsWellformed(infos: ModuleInfos, offset: nat)
    requires ShortcutsHonest(infos, offset)
    ensures Wellformed(infos, offset)
  {
    forall p ensures var span := SpanOf(infos, offset, Joining, p); span.Some? ==> span.value.start <= span.value.end {
      SpanIsPlaced(infos, offset, Joining, p, |infos|);
    }
  }

  /** The swarm described by the announcements: all joining or online peers in the order of their ids. */
  ghost predicate IsSwarm(infos: ModuleInfos, offset: nat, peers: seq<PeerId>, servers: seq<Server>) {
    && |peers| == |servers|
    && (forall i, j :: 0 <= i < j < |peers| ==> peers[i] < peers[j])
    && (forall p :: p in peers <==> SpanOf(infos, offset, Joining, p).Some?)
    && forall i :: 0 <= i < |peers| ==>
         var span := SpanOf(infos, offset, Joining, peers[i]);
         span.Some? && 0 <= span.value.start && servers[i] == PlacedServer(span.value, |infos|)
  }

  /** What these peers announce for a block, together. */
  function Announced(infos: ModuleInfos, offset: nat, peers: seq<PeerId>, block: nat): real {
    if peers == [] then 0.0
    else
      var span := SpanOf(infos, offset, Joining, peers[0]);
      (if span.Some? && Reaches(span.value, |infos|, block) then span.value.info.throughput else 0.0)
      + Announced(infos, offset, peers[1..], block)
  }

  function AnnouncedThroughputs(infos: ModuleInfos, offset: nat, peers: seq<PeerId>): (v: seq<real>)
    ensures |v| == |infos|
  {
    seq(|infos|, block requires 0 <= block < |infos| => Announced(infos, offset, peers, block))
  }

  /** The swarm that is read has exactly the announced throughputs. */
  lemma {:induction false} LoadIsAnnounced(infos: ModuleInfos, offset: nat, peers: seq<PeerId>, servers: seq<Server>,
                                           block: nat)
    requires |peers| == |servers| && block < |infos|
    requires forall i :: 0 <= i < |peers| ==>
               var span := SpanOf(infos, offset, Joining, peers[i]);
               span.Some? && 0 <= span.value.start && servers[i] == PlacedServer(span.value, |infos|)
    ensures Load(servers, block) == Announced(infos, offset, peers, block)
  {
    if peers != [] {
      var span := SpanOf(infos, offset, Joining, peers[0]);
      assert servers[0] == PlacedServer(span.value, |infos|);
      forall i | 0 <= i < |peers[1..]|
        ensures var span := SpanOf(infos, offset, Joining, peers[1..][i]);
                span.Some? && 0 <= span.value.start && servers[1..][i] == PlacedServer(span.value, |infos|)
      {
        assert peers[1..][i] == peers[i + 1] && servers[1..][i] == servers[i + 1];
      }
      hide SpanOf, PlacedServer, Reaches;
      LoadIsAnnounced(infos, offset, peers[1..], servers[1..], block);
    }
  }

  lemma SwarmIsAnnounced(infos: ModuleInfos, offset: nat, peers: seq<PeerId>, servers: seq<Server>)
    requires IsSwarm(infos, offset, peers, servers)
    ensures Throughputs(servers, |infos|) == AnnouncedThroughputs(infos, offset, peers)
  {
    hide PlacedServer, SpanOf;
    forall block: nat | block < |infos|
      ensures Throughputs(servers, |infos|)[block] == AnnouncedThroughputs(infos, offset, peers)[block]
    {
      LoadIsAnnounced(infos, offset, peers, servers, block);
    }
  }

  method LeastPeer(todo: set<PeerId>) returns (least: PeerId)
    requires todo != {}
    ensures least in todo && forall p :: p in todo ==> least <= p
  {
    least :| least in todo;
    var rest := todo - {least};
    while rest != {}
      invariant least in todo && rest <= todo
      invariant forall p :: p in todo && p !in rest ==> least <= p
      decreases |rest|
    {
      var p :| p in rest;
      if p < least {
        least := p;
      }
      rest := rest - {p};
    }
  }

  lemma SpanIffNotOffline(infos: ModuleInfos, offset: nat, p: PeerId)
    ensures SpanOf(infos, offset, Joining, p).Some? <==>
              exists b :: 0 <= b < |infos| && p in infos[b] && infos[b][p].state != Offline
  {
    SpanCarriesHighestState(infos, offset, Joining, p, |infos|);
    if b :| 0 <= b < |infos| && p in infos[b] && infos[b][p].state != Offline {
      assert Announces(infos, Joining, p, b, infos[b][p].state);
    }
  }

  /** compute_spans, and its values sorted by peer id. */
  method ReadSwarm(infos: ModuleInfos, offset: nat) returns (peers: seq<PeerId>, servers: seq<Server>)
    ensures IsSwarm(infos, offset, peers, servers) && InRange(servers, |infos|)
    ensures Throughputs(servers, |infos|) == AnnouncedThroughputs(infos, offset, peers)
    ensures forall p :: p in peers <==>
              exists b :: 0 <= b < |infos| && p in infos[b] && infos[b][p].state != Offline
  {
    forall p ensures SpanOf(infos, offset, Joining, p).Some? <==>
      exists b :: 0 <= b < |infos| && p in infos[b] && infos[b][p].state != Offline
    {
      SpanIffNotOffline(infos, offset, p);
    }
    var spans := ComputeSpans(infos, offset, Joining);
    forall p | p in spans
      ensures 0 <= spans[p].start
    {
      assert Lookup(spans, p) == SpanOf(infos, offset, Joining, p);
      SpanCarriesHighestState(infos, offset, Joining, p, |infos|);
    }
    peers, servers := [], [];
    var todo := spans.Keys;
    while todo != {}
      invariant todo <= spans.Keys && |peers| == |servers|
      invariant forall p :: p in peers <==> p in spans.Keys - todo
      invariant forall i, p :: 0 <= i < |peers| && p in todo ==> peers[i] < p
      invariant forall i, j :: 0 <= i < j < |peers| ==> peers[i] < peers[j]
      invariant forall i :: 0 <= i < |peers| ==>
                  peers[i] in spans && servers[i] == PlacedServer(spans[peers[i]], |infos|)
      decreases |todo|
    {
      var p := LeastPeer(todo);
      peers, servers := peers + [p], servers + [PlacedServer(spans[p], |infos|)];
      todo := todo - {p};
    }
    forall p ensures p in peers <==> SpanOf(infos, offset, Joining, p).Some? {
      assert Lookup(spans, p) == SpanOf(infos, offset, Joining, p);
    }
    forall i | 0 <= i < |peers|
      ensures SpanOf(infos, offset, Joining, peers[i]) == Some(spans[peers[i]])
    {
      assert Lookup(spans, peers[i]) == SpanOf(infos, offset, Joining, peers[i]);
    }
    SwarmIsAnnounced(infos, offset, peers, servers);
  }

  /** choose_best_blocks: the consecutive blocks a new server should host. */
  method ChooseBestBlocks(numBlocks: nat, infos: ModuleInfos, offset: nat)
    returns (blocks: Option<seq<nat>>, ghost peers: seq<PeerId>, ghost servers: seq<Server>)
    ensures IsSwarm(infos, offset, peers, servers) && InRange(servers, |infos|)
    ensures blocks.Some? <==> numBlocks <= |infos|
    ensures blocks.Some? ==> |blocks.value| == numBlocks
    ensures blocks.Some? && numBlocks > 0 ==>
              && (forall i :: 0 <= i < numBlocks ==> blocks.value[i] == blocks.value[0] + i < |infos|)
              && OptimalStart(Throughputs(servers, |infos|), numBlocks, blocks.value[0])
    ensures blocks.Some? && numBlocks > 0 ==>
              var v := AnnouncedThroughputs(infos, offset, peers);
              && blocks.value[0] + numBlocks <= |v|
              && OptimalStart(v, numBlocks, blocks.value[0]) && FirstOfPoorest(v, numBlocks, blocks.value[0])
  {
    hide OptimalStart, IsSwarm, Announced, Load, Worse;
    var ps, ss := ReadSwarm(infos, offset);
    peers, servers := ps, ss;
    var start := ChooseWindow(ss, |infos|, numBlocks);
    blocks := if start.None? then None else Some(seq(numBlocks, i requires 0 <= i < numBlocks => start.value + i));
    assert blocks.Some? && numBlocks > 0 ==> blocks.value[0] == start.value;
  }

  /** The second half of a server's turn: its share, taken out of the array before, is put back at
      newStart. The array then again equals the throughputs recomputed from the spans. */
  method Relocate(spans: array<Server>, a: array<real>, total: nat, k: nat, newStart: nat)
    requires k < spans.Length && a.Length == total
    requires InRange(spans[..], total) && newStart + spans[k].length <= total
    requires a[..] == SeenBy(spans[..], total, k)
    modifies spans, a
    ensures spans[..] == Move(old(spans[..]), k, newStart)
    ensures a[..] == Throughputs(spans[..], total)
  {
    ghost var before := spans[..];
    var span := spans[k];
    ThroughputsAfterMove(before, total, k, newStart);
    AddSlice(a, span.start, span.End(), span.throughput * EPS);
    assert a[..] == Without(before, total, k);
    if span.start != newStart {
      spans[k] := span.(start := newStart);
    }
    ghost var after := spans[..];
    assert after == Move(before, k, newStart);
    AddSlice(a, newStart, newStart + span.length, span.throughput);
    assert a[..] == Throughputs(after, total);
  }

  /** One server's turn: its share is taken out of the array (and a little more), the best start is
      looked up, and its share is put back there. */
  method Reconsider(spans: array<Server>, a: array<real>, total: nat, k: nat) returns (moved: bool)
    requires k < spans.Length && a.Length == total
    requires InRange(spans[..], total)
    requires a[..] == Throughputs(spans[..], total)
    modifies spans, a
    ensures a[..] == Throughputs(spans[..], total)
    ensures moved == (PreferredStart(old(spans[..]), total, k) != old(spans[k].start))
    ensures spans[..] == Move(old(spans[..]), k, PreferredStart(old(spans[..]), total, k))
    ensures InRange(spans[..], total) && SameServers(old(spans[..]), spans[..])
    ensures moved ==> Improved(old(spans[..]), spans[..], total)
    ensures !moved ==> spans[..] == old(spans[..])
  {
    ghost var before := spans[..];
    var span := spans[k];
    AddSlice(a, span.start, span.End(), -(span.throughput * (1.0 + EPS)));
    assert a[..] == SeenBy(before, total, k);
    var newStart := BestStart(a[..], span.length);
    moved := span.start != newStart;
    if moved {
      EveryMoveImproves(before, total, k);
    }
    Relocate(spans, a, total, k, newStart);
  }

  /** Every server exactly once, in some order. */
  ghost predicate IsShuffle(order: seq<nat>, n: nat) {
    && |order| == n
    && (forall k: nat :: k < n ==> k in order)
    && (forall i :: 0 <= i < |order| ==> order[i] < n)
  }

  ghost predicate Shuffles(shuffle: nat -> seq<nat>, n: nat) {
    forall r :: IsShuffle(shuffle(r), n)
  }

  // ---- the search as a function of the shuffles

  /** The placement after one pass of turns in the given order. */
  ghost function Pass(servers: seq<Server>, total: nat, order: seq<nat>): (r: seq<Server>)
    requires InRange(servers, total) && forall i :: 0 <= i < |order| ==> order[i] < |servers|
    ensures InRange(r, total) && SameServers(servers, r)
  {
    if order == [] then servers
    else
      var before, k := Pass(servers, total, order[..|order| - 1]), order[|order| - 1];
      Move(before, k, PreferredStart(before, total, k))
  }

  ghost predicate AtLeastAsGood(before: seq<Server>, after: seq<Server>, total: nat)
    requires InRange(before, total) && InRange(after, total)
  {
    before == after || Improved(before, after, total)
  }

  lemma TurnImproves(servers: seq<Server>, total: nat, k: nat)
    requires InRange(servers, total) && k < |servers|
    ensures var after := Move(servers, k, PreferredStart(servers, total, k));
            && InRange(after, total) && AtLeastAsGood(servers, after, total)
            && (after == servers <==> PreferredStart(servers, total, k) == servers[k].start)
  {
    if PreferredStart(servers, total, k) != servers[k].start {
      EveryMoveImproves(servers, total, k);
    }
  }

  lemma GoodTransitive(a: seq<Server>, b: seq<Server>, c: seq<Server>, total: nat)
    requires InRange(a, total) && InRange(b, total) && InRange(c, total)
    requires AtLeastAsGood(a, b, total) && AtLeastAsGood(b, c, total)
    ensures AtLeastAsGood(a, c, total)
    ensures a == c ==> a == b
  {
    if a != b && b != c {
      ImprovedTransitive(a, b, c, total);
      ImprovedIrreflexive(a, total);
    }
  }

  /** A pass is progress, or nobody who had a turn wanted to move. */
  lemma {:induction false} PassImproves(servers: seq<Server>, total: nat, order: seq<nat>)
    requires InRange(servers, total) && forall i :: 0 <= i < |order| ==> order[i] < |servers|
    ensures AtLeastAsGood(servers, Pass(servers, total, order), total)
    ensures Pass(servers, total, order) == servers ==>
              forall i :: 0 <= i < |order| ==> PreferredStart(servers, total, order[i]) == servers[order[i]].start
    decreases |order|
  {
    hide InRange, PreferredStart, Improved;
    if order != [] {
      var front := order[..|order| - 1];
      PassImproves(servers, total, front);
      var before := Pass(servers, total, front);
      TurnImproves(before, total, order[|order| - 1]);
      GoodTransitive(servers, before, Pass(servers, total, order), total);
      assert forall i :: 0 <= i < |front| ==> front[i] == order[i];
    }
  }

  lemma FullPassSettles(servers: seq<Server>, total: nat, order: seq<nat>)
    requires InRange(servers, total) && IsShuffle(order, |servers|) && Pass(servers, total, order) == servers
    ensures Settled(servers, total)
  {
    PassImproves(servers, total, order);
    forall k: nat | k < |servers| ensures PreferredStart(servers, total, k) == servers[k].start {
      assert k in order;
    }
  }

  /** The placement in which the search ends, from pass number `round` on. It is defined because every
      pass that changes something is progress. */
  ghost function Search(servers: seq<Server>, total: nat, shuffle: nat -> seq<nat>, round: nat): (r: seq<Server>)
    requires InRange(servers, total) && Shuffles(shuffle, |servers|)
    ensures InRange(r, total) && SameServers(servers, r)
    decreases BetterPlacements(servers, total), RestlessInert(servers, total)
  {
    assert IsShuffle(shuffle(round), |servers|);
    var after := Pass(servers, total, shuffle(round));
    if after == servers then servers
    else
      PassImproves(servers, total, shuffle(round));
      ImprovedShrinksMeasure(servers, after, total);
      Search(after, total, shuffle, round + 1)
  }

  /** For every sequence of shuffles: in the end no server prefers another start, and the placement is at
      least as good as before. */
  lemma {:induction false} SearchSettles(servers: seq<Server>, total: nat, shuffle: nat -> seq<nat>, round: nat)
    requires InRange(servers, total) && Shuffles(shuffle, |servers|)
    ensures var final := Search(servers, total, shuffle, round);
            Settled(final, total) && AtLeastAsGood(servers, final, total)
    decreases BetterPlacements(servers, total), RestlessInert(servers, total)
  {
    assert IsShuffle(shuffle(round), |servers|);
    var after := Pass(servers, total, shuffle(round));
    if after == servers {
      FullPassSettles(servers, total, shuffle(round));
    } else {
      PassImproves(servers, total, shuffle(round));
      ImprovedShrinksMeasure(servers, after, total);
      SearchSettles(after, total, shuffle, round + 1);
      GoodTransitive(servers, after, Search(after, total, shuffle, round + 1), total);
    }
  }

  /** Server k goes to the start it prefers, nobody else moves. */
  ghost predicate Turn(now: seq<Server>, k: nat, after: seq<Server>, total: nat) {
    && InRange(now, total) && k < |now|
    && after == now[k := now[k].(start := PreferredStart(now, total, k))]
  }

  /** A pass, turn by turn, in the given order. */
  ghost predicate PassOf(before: seq<Server>, order: seq<nat>, total: nat, after: seq<Server>,
                         turns: seq<seq<Server>>) {
    && |turns| == |order| + 1 && turns[0] == before && turns[|order|] == after
    && forall i :: 0 <= i < |order| ==> Turn(turns[i], order[i], turns[i + 1], total)
  }

  lemma {:induction false} PassTurnByTurn(servers: seq<Server>, total: nat, order: seq<nat>)
    returns (turns: seq<seq<Server>>)
    requires InRange(servers, total) && forall i :: 0 <= i < |order| ==> order[i] < |servers|
    ensures PassOf(servers, order, total, Pass(servers, total, order), turns)
    decreases |order|
  {
    hide PreferredStart, InRange;
    if order == [] {
      turns := [servers];
    } else {
      var front, last := order[..|order| - 1], order[|order| - 1];
      assert order == front + [last];
      var first := PassTurnByTurn(servers, total, front);
      turns := first + [Pass(servers, total, order)];
      OneMoreTurn(servers, front, last, total, Pass(servers, total, front), Pass(servers, total, order), first);
    }
  }

  lemma OneMoreTurn(before: seq<Server>, order: seq<nat>, k: nat, total: nat, now: seq<Server>, after: seq<Server>,
                    turns: seq<seq<Server>>)
    requires PassOf(before, order, total, now, turns) && Turn(now, k, after, total)
    ensures PassOf(before, order + [k], total, after, turns + [after])
  {
    hide Turn;
    var longer, all := order + [k], turns + [after];
    forall i | 0 <= i < |longer| ensures Turn(all[i], longer[i], all[i + 1], total) {
      if i < |order| {
        assert longer[i] == order[i] && all[i] == turns[i] && all[i + 1] == turns[i + 1];
      }
    }
  }

  /** Pass number round + r, on the placement rounds[r], leads to the next placement; the last one changes
      nothing. */
  ghost predicate PassLeadsOn(rounds: seq<seq<Server>>, total: nat, shuffle: nat -> seq<nat>, round: nat, r: int) {
    0 <= r < |rounds| && InRange(rounds[r], total) && IsShuffle(shuffle(round + r), |rounds[r]|) &&
    var after := Pass(rounds[r], total, shuffle(round + r));
    if r + 1 < |rounds| then after == rounds[r + 1] != rounds[r] else after == rounds[r]
  }

  /** The search, pass by pass: each pass takes the servers in the order of its own shuffle, every pass but the
      last one changes something, and the last one nothing. */
  lemma {:induction false} SearchPassByPass(servers: seq<Server>, total: nat, shuffle: nat -> seq<nat>, round: nat)
    returns (rounds: seq<seq<Server>>)
    requires InRange(servers, total) && Shuffles(shuffle, |servers|)
    ensures |rounds| >= 1 && rounds[0] == servers && rounds[|rounds| - 1] == Search(servers, total, shuffle, round)
    ensures forall r :: 0 <= r < |rounds| ==> PassLeadsOn(rounds, total, shuffle, round, r)
    decreases BetterPlacements(servers, total), RestlessInert(servers, total)
  {
    hide Pass, BetterPlacements, RestlessInert, Improved, SameServers, InRange;
    assert IsShuffle(shuffle(round), |servers|);
    var after := Pass(servers, total, shuffle(round));
    if after == servers {
      rounds := [servers];
    } else {
      PassImproves(servers, total, shuffle(round));
      ImprovedShrinksMeasure(servers, after, total);
      SameNumber(servers, after);
      var rest := SearchPassByPass(after, total, shuffle, round + 1);
      rounds := [servers] + rest;
      forall r | 0 <= r < |rounds| ensures PassLeadsOn(rounds, total, shuffle, round, r) {
        if r > 0 {
          assert PassLeadsOn(rest, total, shuffle, round + 1, r - 1);
          assert rounds[r] == rest[r - 1] && round + 1 + (r - 1) == round + r;
        }
      }
    }
  }

  lemma SameNumber(a: seq<Server>, b: seq<Server>)
    requires SameServers(a, b)
    ensures |a| == |b|
  {
  }

  /** One pass of the search over all servers, in the given order. */
  method OnePass(spans: array<Server>, a: array<real>, total: nat, order: seq<nat>) returns (moved: bool)
    requires a.Length == total && IsShuffle(order, spans.Length)
    requires InRange(spans[..], total)
    requires a[..] == Throughputs(spans[..], total)
    modifies spans, a
    ensures a[..] == Throughputs(spans[..], total)
    ensures spans[..] == Pass(old(spans[..]), total, order)
    ensures moved <==> spans[..] != old(spans[..])
  {
    moved := false;
    ghost var before := spans[..];
    for i := 0 to |order|
      invariant a[..] == Throughputs(spans[..], total)
      invariant spans[..] == Pass(before, total, order[..i])
      invariant moved <==> spans[..] != before
    {
      PassImproves(before, total, order[..i]);
      TurnImproves(spans[..], total, order[i]);
      assert order[..i + 1][..i] == order[..i];
      ghost var previous := spans[..];
      var thisMoved := Reconsider(spans, a, total, order[i]);
      GoodTransitive(before, previous, spans[..], total);
      if thisMoved {
        moved := true;
      }
    }
    assert order[..|order|] == order;
  }

  /** while moved: repeat passes, in any shuffle order, until nobody moves. It stops for every shuffle, in
      exactly the placement of the search. */
  method Rebalance(spans: array<Server>, a: array<real>, total: nat, shuffle: nat -> seq<nat>)
    requires a.Length == total && Shuffles(shuffle, spans.Length)
    requires InRange(spans[..], total)
    requires a[..] == Throughputs(spans[..], total)
    modifies spans, a
    ensures spans[..] == Search(old(spans[..]), total, shuffle, 0)
    ensures a[..] == Throughputs(spans[..], total)
  {
    ghost var start := spans[..];
    var moved := true;
    var round := 0;
    while moved
      invariant a[..] == Throughputs(spans[..], total)
      invariant InRange(spans[..], total)
      invariant Search(start, total, shuffle, 0)
             == if moved then Search(spans[..], total, shuffle, round) else spans[..]
      decreases BetterPlacements(spans[..], total), RestlessInert(spans[..], total), moved
    {
      ghost var previous := spans[..];
      assert IsShuffle(shuffle(round), spans.Length);
      moved := OnePass(spans, a, total, shuffle(round));
      if moved {
        PassImproves(previous, total, shuffle(round));
        ImprovedShrinksMeasure(previous, spans[..], total);
      }
      round := round + 1;
    }
  }

  /** Taking the local server away would leave some block unserved that is served now. */
  predicate WouldDisconnect(servers: seq<Server>, total: nat, local: nat)
    requires local < |servers| && total > 0
  {
    Bottleneck(servers, total) > EPS && Minimum(SeenBy(servers, total, local)) <= 0.0
  }

  predicate StaysPut(servers: seq<Server>, total: nat, local: nat)
    requires local < |servers| && total > 0 && servers[local].length <= total
  {
    WouldDisconnect(servers, total, local) || PreferredStart(servers, total, local) == servers[local].start
  }

  /** The swarm would be cut: all blocks are served today, and on some block of the local server's window the
      other servers together have no more than a thousandth of its throughput. */
  lemma DisconnectIffServedAlone(servers: seq<Server>, total: nat, local: nat)
    requires total > 0 && local < |servers| && InRange(servers, total)
    ensures WouldDisconnect(servers, total, local) <==>
              && Bottleneck(servers, total) > 0.001
              && exists block: nat :: servers[local].start <= block < servers[local].End()
                   && Load(Others(servers, local), block) <= servers[local].throughput * 0.001
  {
    hide SeenBy, Load, Throughputs, Minimum;
    var v := SeenBy(servers, total, local);
    if WouldDisconnect(servers, total, local) {
      var block :| 0 <= block < total && v[block] == Minimum(v);
      SeenAt(servers, total, local, block);
    }
    if exists block: nat :: && servers[local].start <= block < servers[local].End()
                            && Load(Others(servers, local), block) <= servers[local].throughput * 0.001 {
      var block: nat :| && servers[local].start <= block < servers[local].End()
                        && Load(Others(servers, local), block) <= servers[local].throughput * 0.001;
      SeenAt(servers, total, local, block);
    }
  }

  lemma SeenAt(servers: seq<Server>, total: nat, local: nat, block: nat)
    requires total > 0 && local < |servers| && block < total
    ensures var s, seen := servers[local], SeenBy(servers, total, local)[block];
            if s.start <= block < s.End() then seen == Load(Others(servers, local), block) - s.throughput * 0.001
            else seen >= Bottleneck(servers, total)
  {
    SeenIsOthers(servers, total, local, block);
    LoadIsOthersAndOwn(servers, local, block);
    assert Throughputs(servers, total)[block] >= Bottleneck(servers, total);
  }

  /** The local server's own move, before the others react to it. */
  method MoveLocal(spans: array<Server>, a: array<real>, total: nat, local: nat) returns (moved: bool)
    requires total > 0 && local < spans.Length && a.Length == total
    requires InRange(spans[..], total)
    requires a[..] == Throughputs(spans[..], total)
    modifies spans, a
    ensures moved == !StaysPut(old(spans[..]), total, local)
    ensures var before := old(spans[..]);
            moved <==>
              && before[local].start != PreferredStart(before, total, local)
              && !(Bottleneck(before, total) > 0.001
                   && exists block: nat :: before[local].start <= block < before[local].End()
                        && Load(Others(before, local), block) <= before[local].throughput * 0.001)
    ensures !moved ==> spans[..] == old(spans[..])
    ensures moved ==>
              && spans[..] == Move(old(spans[..]), local, PreferredStart(old(spans[..]), total, local))
              && InRange(spans[..], total)
              && a[..] == Throughputs(spans[..], total)
              && Improved(old(spans[..]), spans[..], total)
  {
    ghost var before := spans[..];
    DisconnectIffServedAlone(before, total, local);
    hide Load, Others;
    var initialThroughput := Minimum(a[..]);
    var span := spans[local];
    AddSlice(a, span.start, span.End(), -(span.throughput * (1.0 + EPS)));
    assert a[..] == SeenBy(before, total, local);
    if initialThroughput > EPS && Minimum(a[..]) <= 0.0 {
      return false;  // switching blocks would make the swarm disjoint
    }
    var newStart := BestStart(a[..], span.length);
    if span.start == newStart {
      return false;  // this server is in its best place already
    }
    EveryMoveImproves(before, total, local);
    Relocate(spans, a, total, local, newStart);
    return true;
  }

  /** The slowest block is served, and today's bottleneck is below (balanceQuality - EPS) times the
      new one. */
  predicate WorthMoving(initialThroughput: real, newThroughput: real, balanceQuality: real) {
    newThroughput >= EPS && initialThroughput < (balanceQuality - EPS) * newThroughput
  }

  /** The final verdict. For a quality of at most 1, and no other gets here, the test for a lower new bottleneck
      adds nothing to the other two. */
  method Judge(initialThroughput: real, newThroughput: real, balanceQuality: real) returns (choose: bool)
    requires balanceQuality <= 1.0
    ensures choose <==> WorthMoving(initialThroughput, newThroughput, balanceQuality)
  {
    if newThroughput < initialThroughput || newThroughput < EPS {
      return false;
    }
    var actualQuality := initialThroughput / newThroughput;
    QualityTest(initialThroughput, newThroughput, balanceQuality - EPS);
    return actualQuality < balanceQuality - EPS;
  }

  /** Where the search ends after the local server's move. */
  ghost function Final(servers: seq<Server>, total: nat, local: nat, shuffle: nat -> seq<nat>): (r: seq<Server>)
    requires local < |servers| && InRange(servers, total) && Shuffles(shuffle, |servers|)
    ensures InRange(r, total) && SameServers(servers, r)
  {
    Search(Move(servers, local, PreferredStart(servers, total, local)), total, shuffle, 0)
  }

  /** The local server goes first; then pass follows pass until one changes nothing. */
  lemma FinalPassByPass(servers: seq<Server>, total: nat, local: nat, shuffle: nat -> seq<nat>)
    returns (rounds: seq<seq<Server>>)
    requires local < |servers| && InRange(servers, total) && Shuffles(shuffle, |servers|)
    ensures |rounds| >= 1 && rounds[|rounds| - 1] == Final(servers, total, local, shuffle)
    ensures Turn(servers, local, rounds[0], total)
    ensures forall r :: 0 <= r < |rounds| ==> PassLeadsOn(rounds, total, shuffle, 0, r)
  {
    rounds := SearchPassByPass(Move(servers, local, PreferredStart(servers, total, local)), total, shuffle, 0);
  }

  /** The unforced answer: yes exactly when the local server wants to move without disconnecting the swarm
      and the placement in which the search ends is worth moving for. */
  ghost predicate Decision(servers: seq<Server>, total: nat, local: nat, balanceQuality: real, shuffle: nat -> seq<nat>)
    requires total > 0 && local < |servers| && InRange(servers, total) && Shuffles(shuffle, |servers|)
  {
    && !StaysPut(servers, total, local)
    && WorthMoving(Bottleneck(servers, total), Bottleneck(Final(servers, total, local, shuffle), total), balanceQuality)
  }

  /** When the local server moves, the search ends in a settled placement that is better than today's and
      whose slowest block is no slower. */
  lemma FinalIsBetter(servers: seq<Server>, total: nat, local: nat, shuffle: nat -> seq<nat>)
    requires total > 0 && local < |servers| && InRange(servers, total) && Shuffles(shuffle, |servers|)
    requires !StaysPut(servers, total, local)
    ensures var final := Final(servers, total, local, shuffle);
            && Settled(final, total) && Improved(servers, final, total)
            && Bottleneck(servers, total) <= Bottleneck(final, total)
  {
    var first := Move(servers, local, PreferredStart(servers, total, local));
    var final := Final(servers, total, local, shuffle);
    TurnImproves(servers, total, local);
    SearchSettles(first, total, shuffle, 0);
    GoodTransitive(servers, first, final, total);
    ImprovedKeepsMinimum(servers, final, total);
  }

  /** A yes means that the search ends in a swarm whose bottleneck is strictly faster than today's. */
  lemma YesMeansFaster(servers: seq<Server>, total: nat, local: nat, balanceQuality: real, shuffle: nat -> seq<nat>)
    requires total > 0 && local < |servers| && InRange(servers, total) && Shuffles(shuffle, |servers|)
    requires balanceQuality <= 1.0 && Decision(servers, total, local, balanceQuality, shuffle)
    ensures Bottleneck(servers, total) < Bottleneck(Final(servers, total, local, shuffle), total)
  {
    WorthMovingIsFaster(Bottleneck(servers, total), Bottleneck(Final(servers, total, local, shuffle), total),
                        balanceQuality);
  }

  lemma RatioIsQuality(now: real, then_: real, balanceQuality: real)
    ensures WorthMoving(now, then_, balanceQuality) <==> then_ >= 0.001 && now / then_ < balanceQuality - 0.001
  {
    if then_ >= 0.001 {
      QualityTest(now, then_, balanceQuality - 0.001);
    }
  }

  /** The decision for the placed servers. Yes exactly if the local server cuts nobody off, prefers another
      start, and the search that its move sets off ends at a bottleneck that is worth it. */
  method Decide(servers: seq<Server>, total: nat, local: nat, balanceQuality: real, shuffle: nat -> seq<nat>)
    returns (choose: bool)
    requires total > 0 && local < |servers| && InRange(servers, total) && Shuffles(shuffle, |servers|)
    requires balanceQuality <= 1.0
    ensures choose == Decision(servers, total, local, balanceQuality, shuffle)
    ensures var now, s := Bottleneck(servers, total), servers[local];
            choose <==>
              && !(now > 0.001 && exists block: nat :: s.start <= block < s.End()
                                    && Load(Others(servers, local), block) <= s.throughput * 0.001)
              && PreferredStart(servers, total, local) != s.start
              && var then_ := Bottleneck(Final(servers, total, local, shuffle), total);
                 then_ >= 0.001 && now / then_ < balanceQuality - 0.001
  {
    hide Settled, Improved, Load, Others;
    DisconnectIffServedAlone(servers, total, local);
    RatioIsQuality(Bottleneck(servers, total), Bottleneck(Final(servers, total, local, shuffle), total),
                   balanceQuality);
    var a := ComputeThroughputs(servers, total);
    var initialThroughput := Minimum(a[..]);
    var spans := new Server[|servers|](i requires 0 <= i < |servers| => servers[i]);
    assert spans[..] == servers;
    var moved := MoveLocal(spans, a, total, local);
    if !moved {
      return false;
    }
    Rebalance(spans, a, total, shuffle);
    choose := Judge(initialThroughput, Minimum(a[..]), balanceQuality);
  }

  /** Whether the local server cuts somebody off, in terms of the announcements. */
  lemma ServedAloneIsAnnounced(infos: ModuleInfos, offset: nat, peers: seq<PeerId>, servers: seq<Server>, local: nat)
    requires IsSwarm(infos, offset, peers, servers) && local < |peers| && Wellformed(infos, offset)
    ensures var span, s := SpanOf(infos, offset, Joining, peers[local]), servers[local];
            && span.Some? && s.start == span.value.start && s.End() == span.value.end
            && s.throughput == span.value.info.throughput
    ensures var s := servers[local];
            (exists block: nat :: s.start <= block < s.End()
                     && Load(Others(servers, local), block) <= s.throughput * 0.001)
            <==> (exists block: nat :: s.start <= block < s.End()
                           && Announced(infos, offset, Others(peers, local), block) <= s.throughput * 0.001)
  {
    var s, span := servers[local], SpanOf(infos, offset, Joining, peers[local]);
    SpanCarriesHighestState(infos, offset, Joining, peers[local], |infos|);
    assert s == PlacedServer(span.value, |infos|);
    forall block: nat | block < |infos|
      ensures Load(Others(servers, local), block) == Announced(infos, offset, Others(peers, local), block)
    {
      LoadIsAnnounced(infos, offset, Others(peers, local), Others(servers, local), block);
    }
    hide Load, Announced, SpanOf, PlacedServer, IsSwarm;
    if exists block: nat :: && s.start <= block < s.End()
                            && Load(Others(servers, local), block) <= s.throughput * 0.001 {
      var block: nat :| s.start <= block < s.End() && Load(Others(servers, local), block) <= s.throughput * 0.001;
      assert Announced(infos, offset, Others(peers, local), block) <= s.throughput * 0.001;
    }
    if exists block: nat :: && s.start <= block < s.End()
                            && Announced(infos, offset, Others(peers, local), block) <= s.throughput * 0.001 {
      var block: nat :| && s.start <= block < s.End()
                        && Announced(infos, offset, Others(peers, local), block) <= s.throughput * 0.001;
      assert Load(Others(servers, local), block) <= s.throughput * 0.001;
    }
  }

  method PositionOf(peers: seq<PeerId>, p: PeerId) returns (k: nat)
    requires p in peers
    ensures k < |peers| && peers[k] == p
  {
    k := 0;
    while peers[k] != p
      invariant k < |peers| && p in peers[k..]
      decreases |peers| - k
    {
      k := k + 1;
    }
  }

  /** should_choose_other_blocks. None stands for the failed assertion when the local server is not in
      the swarm (or there are no blocks at all). shuffle(n)(r) is the order in which n servers are visited
      in pass r. */
  method ShouldChooseOtherBlocks(localPeer: PeerId, infos: ModuleInfos, offset: nat, balanceQuality: real,
                                 shuffle: nat -> nat -> seq<nat>)
    returns (choose: Option<bool>, ghost peers: seq<PeerId>, ghost servers: seq<Server>, ghost local: nat)
    requires balanceQuality <= 1.0 ==> Wellformed(infos, offset)
    requires forall n :: Shuffles(shuffle(n), n)
    ensures balanceQuality > 1.0 ==> choose == Some(true)
    ensures balanceQuality <= 1.0 ==> (choose.Some? <==> SpanOf(infos, offset, Joining, localPeer).Some?)
    ensures balanceQuality <= 1.0 && choose.Some? ==>
              Answer(localPeer, infos, offset, balanceQuality, shuffle, choose.value)
    ensures balanceQuality <= 1.0 && choose.Some? ==>
              && IsSwarm(infos, offset, peers, servers) && InRange(servers, |infos|)
              && |infos| > 0 && local < |peers| && peers[local] == localPeer
              && Throughputs(servers, |infos|) == AnnouncedThroughputs(infos, offset, peers)
    ensures balanceQuality <= 1.0 && choose.Some? ==>
              var span := SpanOf(infos, offset, Joining, localPeer).value;
              var now := Minimum(AnnouncedThroughputs(infos, offset, peers));
              choose.value <==>
                && !(now > 0.001
                     && exists block: nat ::
                          && span.start <= block < span.end
                          && Announced(infos, offset, Others(peers, local), block) <= span.info.throughput * 0.001)
                && PreferredStart(servers, |infos|, local) != span.start
                && assert Shuffles(shuffle(|servers|), |servers|);
                   var then_ := Bottleneck(Final(servers, |infos|, local, shuffle(|servers|)), |infos|);
                   then_ >= 0.001 && now / then_ < balanceQuality - 0.001
  {
    peers, servers, local := [], [], 0;
    if balanceQuality > 1.0 {
      return Some(true), peers, servers, local;
    }
    var ps, ss := ReadSwarm(infos, offset);
    peers, servers := ps, ss;
    if |infos| == 0 || localPeer !in ps {
      return None, peers, servers, local;
    }
    var k := PositionOf(ps, localPeer);
    local := k;
    hide PlacedServer, Load, Announced, SpanOf;
    SwarmIsAnnounced(infos, offset, ps, ss);
    ServedAloneIsAnnounced(infos, offset, ps, ss, k);
    assert Shuffles(shuffle(|ss|), |ss|);
    var answer := Decide(ss, |infos|, k, balanceQuality, shuffle(|ss|));
    assert DecisionIn(localPeer, infos, offset, balanceQuality, shuffle, answer, ps, ss, k);
    choose := Some(answer);
  }

  ghost predicate DecisionIn(localPeer: PeerId, infos: ModuleInfos, offset: nat, balanceQuality: real,
                             shuffle: nat -> nat -> seq<nat>, answer: bool, peers: seq<PeerId>, servers: seq<Server>,
                             local: nat) {
    && IsSwarm(infos, offset, peers, servers) && InRange(servers, |infos|) && |infos| > 0
    && local < |peers| && peers[local] == localPeer && Shuffles(shuffle(|servers|), |servers|)
    && answer == Decision(servers, |infos|, local, balanceQuality, shuffle(|servers|))
  }

  /** The answer is the decision for the swarm that the announcements describe. */
  ghost predicate Answer(localPeer: PeerId, infos: ModuleInfos, offset: nat, balanceQuality: real,
                         shuffle: nat -> nat -> seq<nat>, answer: bool) {
    exists peers, servers, local: nat ::
      DecisionIn(localPeer, infos, offset, balanceQuality, shuffle, answer, peers, servers, local)
  }

  lemma WorthMovingIsFaster(initial: real, final: real, balanceQuality: real)
    requires balanceQuality <= 1.0 && WorthMoving(initial, final, balanceQuality)
    ensures initial < final
  {
  }

  lemma QualityTest(x: real, y: real, q: real)
    requires y > 0.0
    ensures x / y < q <==> x < q * y
  {
  }
}

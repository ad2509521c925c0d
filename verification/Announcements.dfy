/** From per-block announcements to one span per server: compute_spans of petals/utils/dht.py. */
module Announcements {
  import opened Options

  datatype ServerState = Offline | Joining | Online {
    function Value(): nat {
      match this
      case Offline => 0
      case Joining => 1
      case Online => 2
    }
  }

  /** A server that joins counts for less than one that is online, and more than one that is offline. */
  lemma StatesAreOrdered()
    ensures Offline.Value() < Joining.Value() < Online.Value()
  {
  }

  type PeerId = nat

  /** Requests per second: an announcement with a negative throughput is not accepted. */
  type Rps = x: real | x >= 0.0

  /** What a server announces under one block. firstBlock and endBlock count from the first block of
      the model, not of the window that is looked at. */
  datatype ServerInfo = ServerInfo(state: ServerState, throughput: Rps, firstBlock: Option<nat>,
                                   endBlock: Option<nat>) {
    predicate HasShortcut() { firstBlock.Some? && endBlock.Some? }
  }

  datatype RemoteSpan = RemoteSpan(start: int, end: int, info: ServerInfo)

  /** The servers of each block of the window; the window starts at block `offset` of the model. */
  type ModuleInfos = seq<map<PeerId, ServerInfo>>

  function Max(a: int, b: int): int { if a < b then b else a }
  function Min(a: int, b: int): int { if a < b then a else b }

  function NewSpan(info: ServerInfo, block: nat, offset: nat, numBlocks: nat): RemoteSpan {
    if info.HasShortcut()
    then RemoteSpan(Max(info.firstBlock.value - offset, 0), Min(info.endBlock.value - offset, numBlocks), info)
    else RemoteSpan(block, block + 1, info)
  }

  /** What one announcement does to the span a peer has so far. */
  function Update(span: Option<RemoteSpan>, info: ServerInfo, block: nat, offset: nat, numBlocks: nat,
                  minState: ServerState)
    : Option<RemoteSpan>
  {
    if info.state.Value() < minState.Value() then span
    else if span.None? || span.value.info.state.Value() < info.state.Value()
    then Some(NewSpan(info, block, offset, numBlocks))
    else if span.value.info.state == info.state then Some(span.value.(end := Max(span.value.end, block + 1)))
    else span
  }

  /** The span of one peer after the first k blocks. */
  function SpanAfter(infos: ModuleInfos, offset: nat, minState: ServerState, p: PeerId, k: nat): Option<RemoteSpan>
    requires k <= |infos|
  {
    if k == 0 then None
    else
      var before := SpanAfter(infos, offset, minState, p, k - 1);
      if p in infos[k - 1] then Update(before, infos[k - 1][p], k - 1, offset, |infos|, minState) else before
  }

  function SpanOf(infos: ModuleInfos, offset: nat, minState: ServerState, p: PeerId): Option<RemoteSpan> {
    SpanAfter(infos, offset, minState, p, |infos|)
  }

  function Lookup(spans: map<PeerId, RemoteSpan>, p: PeerId): Option<RemoteSpan> {
    if p in spans then Some(spans[p]) else None
  }

  /** One announcement is entered into the table; every other peer's span stays. */
  method Enter(spans: map<PeerId, RemoteSpan>, peer: PeerId, info: ServerInfo, block: nat, offset: nat, numBlocks: nat,
               minState: ServerState)
    returns (r: map<PeerId, RemoteSpan>)
    ensures Lookup(r, peer) == Update(Lookup(spans, peer), info, block, offset, numBlocks, minState)
    ensures forall p :: p != peer ==> Lookup(r, p) == Lookup(spans, p)
  {
    r := spans;
    if info.state.Value() < minState.Value() {
      return;
    }
    if peer !in r || r[peer].info.state.Value() < info.state.Value() {
      r := r[peer := RemoteSpan(block, block + 1, info)];
      if info.firstBlock.Some? && info.endBlock.Some? {
        r := r[peer := r[peer].(start := Max(info.firstBlock.value - offset, 0))];
        r := r[peer := r[peer].(end := Min(info.endBlock.value - offset, numBlocks))];
      }
    } else if r[peer].info.state == info.state {
      r := r[peer := r[peer].(end := Max(r[peer].end, block + 1))];
    }
  }

  /** compute_spans: one span per peer, built block by block. A peer occurs once per block, so the order
      of the peers within a block does not matter. */
  method ComputeSpans(infos: ModuleInfos, offset: nat, minState: ServerState) returns (spans: map<PeerId, RemoteSpan>)
    ensures forall p :: Lookup(spans, p) == SpanOf(infos, offset, minState, p)
  {
    spans := map[];
    for block := 0 to |infos|
      invariant forall p :: Lookup(spans, p) == SpanAfter(infos, offset, minState, p, block)
    {
      var todo := infos[block].Keys;
      while todo != {}
        invariant todo <= infos[block].Keys
        invariant forall p :: p in todo ==> Lookup(spans, p) == SpanAfter(infos, offset, minState, p, block)
        invariant forall p :: p !in todo ==> Lookup(spans, p) == SpanAfter(infos, offset, minState, p, block + 1)
      {
        var peer :| peer in todo;
        spans := Enter(spans, peer, infos[block][peer], block, offset, |infos|, minState);
        todo := todo - {peer};
      }
    }
  }

  /** Peer p announces, under block b, a state that counts. */
  predicate Announces(infos: ModuleInfos, minState: ServerState, p: PeerId, b: int, state: ServerState) {
    0 <= b < |infos| && p in infos[b] && infos[b][p].state == state && state.Value() >= minState.Value()
  }

  /** A peer has a span exactly when it announces a state of at least minState; the span carries the
      highest state it announces and never leaves the window. */
  lemma {:induction false} SpanCarriesHighestState(infos: ModuleInfos, offset: nat, minState: ServerState, p: PeerId,
                                                   k: nat)
    requires k <= |infos|
    ensures var span := SpanAfter(infos, offset, minState, p, k);
            && (span.None? <==> forall b: int, s :: b < k ==> !Announces(infos, minState, p, b, s))
            && (span.Some? ==>
                  && 0 <= span.value.start && span.value.end <= |infos|
                  && (exists b: int :: b < k && Announces(infos, minState, p, b, span.value.info.state))
                  && (forall b: int, s :: b < k && Announces(infos, minState, p, b, s) ==>
                        s.Value() <= span.value.info.state.Value()))
  {
    if k > 0 {
      SpanCarriesHighestState(infos, offset, minState, p, k - 1);
      var span := SpanAfter(infos, offset, minState, p, k);
      if p in infos[k - 1] && infos[k - 1][p].state.Value() >= minState.Value() {
        assert Announces(infos, minState, p, k - 1, infos[k - 1][p].state);
      }
      assert forall b: int, s :: b == k - 1 && Announces(infos, minState, p, b, s) ==>
               p in infos[k - 1] && s == infos[k - 1][p].state;
    }
  }

  /** Among the first k blocks, first and last are the first and the last one under which the peer announces
      this state, and it announces no higher one. */
  ghost predicate HighestFromTo(infos: ModuleInfos, minState: ServerState, p: PeerId, k: nat, state: ServerState,
                                first: nat, last: nat) {
    && first <= last < k
    && Announces(infos, minState, p, first, state) && Announces(infos, minState, p, last, state)
    && forall b: int, s :: b < k && Announces(infos, minState, p, b, s) ==>
         s.Value() <= state.Value() && (s == state ==> first <= b <= last)
  }

  lemma {:induction false} LastBefore(infos: ModuleInfos, minState: ServerState, p: PeerId, k: nat, state: ServerState,
                                      first: nat)
    returns (last: nat)
    requires first < k && Announces(infos, minState, p, first, state)
    ensures first <= last < k && Announces(infos, minState, p, last, state)
    ensures forall b: int :: last < b < k ==> !Announces(infos, minState, p, b, state)
  {
    if Announces(infos, minState, p, k - 1, state) {
      last := k - 1;
    } else {
      last := LastBefore(infos, minState, p, k - 1, state, first);
    }
  }

  /** Which span a peer ends up with, whatever it announces: it carries what is announced at the first block with
      the highest state. It starts there, or where the shortcut of that announcement says, cut to the window;
      and it ends there too, unless a later block with the same state reaches further. */
  lemma {:induction false} SpanExactly(infos: ModuleInfos, offset: nat, minState: ServerState, p: PeerId, k: nat,
                                       state: ServerState, first: nat, last: nat)
    requires k <= |infos| && HighestFromTo(infos, minState, p, k, state, first, last)
    ensures var info, n := infos[first][p], |infos|;
            var shortcut := info.firstBlock.Some? && info.endBlock.Some?;
            var start := if !shortcut then first as int
                         else if info.firstBlock.value < offset then 0 else info.firstBlock.value - offset;
            var own := if !shortcut then first + 1
                       else if n < info.endBlock.value - offset then n else info.endBlock.value - offset;
            SpanAfter(infos, offset, minState, p, k)
            == Some(RemoteSpan(start, if first < last && own < last + 1 then last + 1 else own, info))
  {
    if p !in infos[k - 1] || infos[k - 1][p].state.Value() < minState.Value() || infos[k - 1][p].state != state {
      if p in infos[k - 1] {
        assert Announces(infos, minState, p, k - 1, infos[k - 1][p].state)
            || infos[k - 1][p].state.Value() < minState.Value();
      }
      SpanExactly(infos, offset, minState, p, k - 1, state, first, last);
    } else {
      assert Announces(infos, minState, p, k - 1, state);
      if first == k - 1 {
        SpanCarriesHighestState(infos, offset, minState, p, k - 1);
      } else {
        var before := LastBefore(infos, minState, p, k - 1, state, first);
        SpanExactly(infos, offset, minState, p, k - 1, state, first, before);
      }
    }
  }

  /** Announced shortcuts include the block they are announced under, as a server that serves it says. */
  ghost predicate ShortcutsHonest(infos: ModuleInfos, offset: nat) {
    forall b: int, p :: 0 <= b < |infos| && p in infos[b] && infos[b][p].HasShortcut() ==>
      infos[b][p].firstBlock.value <= b + offset < infos[b][p].endBlock.value
  }

  /** Spans of honest announcements are non-empty and carry the throughput of some announcement. */
  lemma {:induction false} SpanIsPlaced(infos: ModuleInfos, offset: nat, minState: ServerState, p: PeerId, k: nat)
    requires k <= |infos| && ShortcutsHonest(infos, offset)
    ensures var span := SpanAfter(infos, offset, minState, p, k);
            span.Some? ==>
              && 0 <= span.value.start < span.value.end <= |infos|
              && exists b: int :: 0 <= b < k && p in infos[b] && infos[b][p] == span.value.info
  {
    if k > 0 {
      SpanIsPlaced(infos, offset, minState, p, k - 1);
    }
  }

  /** Without the shortcut fields, the span runs from the first to the last block at which the peer
      announces its highest state. */
  lemma {:induction false} SpanRunsFromFirstToLast(infos: ModuleInfos, offset: nat, minState: ServerState, p: PeerId,
                                                   k: nat)
    requires k <= |infos|
    requires forall b :: 0 <= b < |infos| && p in infos[b] ==> !infos[b][p].HasShortcut()
    ensures var span := SpanAfter(infos, offset, minState, p, k);
            span.Some? ==>
              && span.value.end <= k
              && Announces(infos, minState, p, span.value.start, span.value.info.state)
              && Announces(infos, minState, p, span.value.end - 1, span.value.info.state)
              && forall b: int :: b < k && Announces(infos, minState, p, b, span.value.info.state) ==>
                   span.value.start <= b < span.value.end
  {
    if k > 0 {
      SpanRunsFromFirstToLast(infos, offset, minState, p, k - 1);
      SpanCarriesHighestState(infos, offset, minState, p, k - 1);
    }
  }

  /** Peer p announces the same info under exactly the blocks first .. end of the model. */
  ghost predicate AnnouncesRun(infos: ModuleInfos, offset: nat, p: PeerId, first: nat, end: nat, info: ServerInfo) {
    forall b :: 0 <= b < |infos| ==>
      && (p in infos[b] <==> first <= b + offset < end)
      && (p in infos[b] ==> infos[b][p] == info)
  }

  /** The part of first .. end that the window shows. */
  function Visible(first: nat, end: nat, offset: nat, numBlocks: nat): (int, int) {
    (Max(first - offset, 0), Min(end - offset, numBlocks))
  }

  /** For a peer announcing consecutive blocks in one state, the span is the visible part of its blocks,
      both when it is accumulated block by block and when it comes from the shortcut fields, for every
      window of the model. */
  lemma {:induction false} ShortcutAgreesWithBlocks(infos: ModuleInfos, offset: nat, minState: ServerState, p: PeerId,
                                                    first: nat, end: nat, info: ServerInfo, k: nat)
    requires k <= |infos|
    requires AnnouncesRun(infos, offset, p, first, end, info)
    requires info.state.Value() >= minState.Value()
    requires info.HasShortcut() ==> info.firstBlock.value == first && info.endBlock.value == end
    ensures var (lo, hi) := Visible(first, end, offset, |infos|);
            SpanAfter(infos, offset, minState, p, k)
            == if k <= lo || hi <= lo then None
               else Some(RemoteSpan(lo, if info.HasShortcut() then hi else Min(hi, k), info))
  {
    if k > 0 {
      ShortcutAgreesWithBlocks(infos, offset, minState, p, first, end, info, k - 1);
      assert p in infos[k - 1] <==> first <= k - 1 + offset < end;
    }
  }
}

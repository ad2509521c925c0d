/** The client side of inference: petals/client/inference_session.py. A step sends new tokens through
    a chain of server sessions, replaces sessions that fail, and must return what recomputing all
    blocks on the whole accepted sequence would give. */
module InferenceSession {
  import opened Options
  import opened Routing
  import opened CausalBlocks
  import opened InferenceBackend

  /** What becomes of one request: it never arrives, it is processed but the reply is lost, or all is well. */
  datatype Fate = NotDelivered | ReplyLost | Delivered

  /** The outside world as oracles over time. */
  class Grid<H(!new), K(!new)> {
    const model: Model<H, K>
    const routes: (nat, nat, nat) -> Option<seq<Span>>
    const connects: nat -> bool
    const fates: nat -> Fate
    const chunkLengths: (nat, nat) -> nat
    const batch: nat
    const nf4: bool
    var time: nat
    var failures: nat  // how many of the calls made so far failed

    ghost predicate Valid() {
      && model.count >= 1
      && (forall t, lo, hi :: routes(t, lo, hi).Some? ==> RouteOk(routes(t, lo, hi).value, lo, hi))
      && (forall t, i :: chunkLengths(t, i) >= 1)
    }

    constructor (model: Model<H, K>, routes: (nat, nat, nat) -> Option<seq<Span>>, connects: nat -> bool,
                 fates: nat -> Fate,
                 chunkLengths: (nat, nat) -> nat, batch: nat, nf4: bool)
      requires model.count >= 1
      requires forall t, lo, hi :: routes(t, lo, hi).Some? ==> RouteOk(routes(t, lo, hi).value, lo, hi)
      requires forall t, i :: chunkLengths(t, i) >= 1
      ensures Valid() && time == 0 && failures == 0
      ensures this.model == model && this.routes == routes && this.connects == connects && this.fates == fates
    {
      this.model, this.routes, this.connects, this.fates, this.chunkLengths, this.batch, this.nf4, this.time :=
        model, routes, connects, fates, chunkLengths, batch, nf4, 0;
      this.failures := 0;
    }

    // ---- the calls, each at its own point in time

    method FindRoute(lo: nat, hi: nat) returns (r: Option<seq<Span>>)
      modifies this
      ensures r == routes(old(time), lo, hi) && time == old(time) + 1
      ensures failures == old(failures) + if r.None? then 1 else 0
    {
      r := routes(time, lo, hi);
      time := time + 1;
      failures := failures + if r.None? then 1 else 0;
    }

    method Connect() returns (ok: bool)
      modifies this
      ensures ok == connects(old(time)) && time == old(time) + 1
      ensures failures == old(failures) + if ok then 0 else 1
    {
      ok := connects(time);
      time := time + 1;
      failures := failures + if ok then 0 else 1;
    }

    method Send() returns (fate: Fate)
      modifies this
      ensures fate == fates(old(time)) && time == old(time) + 1
      ensures failures == old(failures) + if fate.Delivered? then 0 else 1
    {
      fate := fates(time);
      time := time + 1;
      failures := failures + if fate.Delivered? then 0 else 1;
    }

    // ---- steps without a failing call

    ghost predicate AllDelivered(lo: nat, hi: nat) {
      forall t: nat :: lo <= t < hi ==> fates(t) == Delivered
    }

    ghost predicate AllConnect(lo: nat, hi: nat) {
      forall t: nat :: lo <= t < hi ==> connects(t)
    }

    /** From time t on, a route is found and all its servers can be reached. */
    ghost predicate Opens(t: nat, lo: nat, hi: nat) {
      routes(t, lo, hi).Some? && AllConnect(t + 1, t + 1 + |routes(t, lo, hi).value|)
    }

    function RouteLength(t: nat, lo: nat, hi: nat): nat {
      if routes(t, lo, hi).Some? then |routes(t, lo, hi).value| else 0
    }

    /** For a step that begins at time t0 with n0 sessions: how many sessions it runs through. */
    function Servers(n0: nat, t0: nat): nat {
      if n0 > 0 then n0 else RouteLength(t0, 0, model.count)
    }

    /** When its first request is due. */
    function FirstRequest(n0: nat, t0: nat): nat {
      if n0 > 0 then t0 else t0 + 1 + RouteLength(t0, 0, model.count)
    }

    /** Everything works up to and including its first k requests. */
    ghost predicate CleanFor(n0: nat, t0: nat, k: nat) {
      && (n0 == 0 ==> Opens(t0, 0, model.count))
      && AllDelivered(FirstRequest(n0, t0), FirstRequest(n0, t0) + k)
    }

    ghost predicate Clean(n0: nat, t0: nat) { CleanFor(n0, t0, Servers(n0, t0)) }
  }

  /** Where the client stands in the middle of a step: how many sessions, at what time, after how many failed
      calls. */
  datatype Mark = Mark(sessions: nat, time: nat, failures: nat)

  /** _ServerInferenceSession: the client's view of one server, with the inputs it has sent there. */
  class ServerSession<H(!new), K(!new)> {
    const span: Span
    const server: RemoteSession<H, K>
    var stepped: bool
    var closed: bool
    var position: nat
    var history: Option<seq<H>>

    ghost const repr: set<object>  // the objects that make up the session

    ghost predicate Owner() {
      this in repr && server in repr && forall i :: 0 <= i < |server.caches| ==> server.caches[i] in repr
    }

    /** The session talks to a server that runs exactly the blocks of its span. */
    ghost predicate Wired(model: Model<H, K>, maxLength: nat) {
      && Owner() && server.Valid() && server.model == model && server.maxLength == maxLength
      && server.first == span.start < span.end <= model.count
      && |server.caches| == span.end - span.start
    }

    /** Client and server agree that these inputs of the span have been processed. */
    ghost predicate InSync(inputs: seq<H>)
      reads repr
    {
      && Owner() && !closed && position == |inputs| && server.Holds(inputs)
      && (inputs == [] ==> history.None? || history == Some([]))
      && (inputs != [] ==> stepped && history == Some(inputs))
    }

    /** A replacement for a session that failed during the first step. */
    ghost predicate Replacing(inputs: seq<H>)
      reads repr
    {
      Owner() && !closed && position == 0 && server.Holds([]) && history == Some(inputs)
    }

    constructor (model: Model<H, K>, span: Span, maxLength: nat)
      requires span.start < span.end <= model.count
      ensures Wired(model, maxLength) && this.span == span && InSync([]) && fresh(repr)
    {
      this.span := span;
      var remote := new RemoteSession<H, K>(model, span.start, span.end - span.start, maxLength);
      this.server := remote;
      this.repr := {this, remote} + CacheObjects(remote.caches);
      this.stepped, this.closed, this.position, this.history := false, false, 0, None;
    }

    /** The position setter. A session that is asked to go forward raises. */
    method SetPosition(startFrom: nat, ghost inputs: seq<H>) returns (ok: bool)
      requires InSync(inputs)
      modifies this
      ensures ok <==> startFrom <= |inputs|
      ensures ok ==> InSync(inputs[..startFrom])
    {
      if startFrom > position {
        return false;
      }
      position := startFrom;
      if history.Some? && |history.value| >= startFrom {
        history := if startFrom > 0 then Some(history.value[..startFrom]) else None;
      }
      HoldPrefix(server.model, server.first, server.stored, inputs, startFrom);
      return true;
    }

    /** One step on one server. It returns exactly if its request is processed and the reply arrives. Then
        the outputs are those of recomputing the span's blocks on everything the session was ever given,
        and client and server agree again. */
    method Step(grid: Grid<H, K>, inputs: seq<H>, maxLength: nat, ghost prefix: seq<H>) returns (r: Option<seq<H>>)
      requires grid.Valid() && Wired(grid.model, maxLength)
      requires InSync(prefix) || (prefix == [] && Replacing(inputs))
      requires |prefix| + |inputs| <= maxLength
      modifies this, server, server.caches, grid
      ensures r.Some? <==> grid.fates(old(grid.time)) == Delivered
      ensures grid.time == old(grid.time) + 1 && grid.failures == old(grid.failures) + if r.Some? then 0 else 1
      ensures r.Some? ==> InSync(prefix + inputs)
      ensures r.Some? ==> r.value == Layers(grid.model, span.start, span.end, prefix + inputs)[|prefix|..]
      ensures r.None? ==> position == old(position) && (prefix == [] ==> history == Some(inputs))
    {
      hide Hold, Match, ContentsAfter, BeforeBlock, AllAtLeast, Layers;
      var nInputTokens := |inputs|;
      if history.None? {
        history := Some(inputs);
      } else if |history.value| == position {
        history := Some(history.value + inputs);
      }
      assert |history.value| == position + nInputTokens;
      assert history.value == prefix + inputs;
      assert prefix == [] ==> prefix + inputs == inputs;
      var sent := if !stepped then history.value else inputs;
      assert sent == inputs;
      var fate := grid.Send();
      stepped := true;
      if fate == NotDelivered {
        return None;
      }
      var now := grid.time;
      var reply := server.Iterate(position, sent, grid.batch, grid.nf4, (i: nat) => grid.chunkLengths(now, i), prefix);
      assert prefix[..|prefix|] == prefix;
      if fate == ReplyLost || reply.None? {
        return None;
      }
      position := position + nInputTokens;
      return reply;
    }
  }

  type Sessions<H(!new), K(!new)> = seq<ServerSession<H, K>>

  function SpansOf<H(!new), K(!new)>(sessions: Sessions<H, K>): (r: seq<Span>)
    ensures |r| == |sessions|
  {
    seq(|sessions|, i requires 0 <= i < |sessions| => sessions[i].span)
  }

  ghost predicate Apart<H(!new), K(!new)>(sessions: Sessions<H, K>) {
    forall i, j :: 0 <= i < j < |sessions| ==> sessions[i].repr !! sessions[j].repr
  }

  /** The chain of sessions: it tiles all blocks, every session is wired to its own server. */
  ghost predicate Chain<H(!new), K(!new)>(model: Model<H, K>, maxLength: nat, sessions: Sessions<H, K>) {
    && (sessions != [] ==> Tiles(SpansOf(sessions), 0, model.count))
    && (forall i :: 0 <= i < |sessions| ==> sessions[i].Wired(model, maxLength))
    && Apart(sessions)
  }

  /** Sessions lo .. hi have processed these inputs of the whole model. */
  ghost predicate Synced<H(!new), K(!new)>(model: Model<H, K>, sessions: Sessions<H, K>, lo: nat, hi: nat, xs: seq<H>)
    requires hi <= |sessions|
    reads set i, o | lo <= i < hi && o in sessions[i].repr :: o
  {
    forall i :: lo <= i < hi ==> sessions[i].InSync(Layers(model, 0, sessions[i].span.start, xs))
  }

  /** The chain's objects lie in a common footprint. */
  ghost predicate Inside<H(!new), K(!new)>(sessions: Sessions<H, K>, footprint: set<object>) {
    forall i :: 0 <= i < |sessions| ==> sessions[i].repr <= footprint
  }

  /** Rolls every session of the chain back, in order. */
  method RollBackAll<H(!new), K(!new)>(model: Model<H, K>, sessions: Sessions<H, K>, startFrom: nat,
                                       ghost xs: seq<H>, ghost footprint: set<object>)
    returns (ok: bool)
    requires Apart(sessions) && Inside(sessions, footprint) && Synced(model, sessions, 0, |sessions|, xs)
    modifies footprint
    ensures ok <==> sessions == [] || startFrom <= |xs|
    ensures ok && sessions != [] ==> Synced(model, sessions, 0, |sessions|, xs[..startFrom])
  {
    for k := 0 to |sessions|
      invariant k > 0 ==> startFrom <= |xs|
      invariant k > 0 ==> Synced(model, sessions, 0, k, xs[..startFrom])
      invariant Synced(model, sessions, k, |sessions|, xs)
    {
      ghost var ys := Layers(model, 0, sessions[k].span.start, xs);
      assert sessions[k].InSync(ys);
      ok := sessions[k].SetPosition(startFrom, ys);
      if !ok {
        return false;
      }
      LayersPrefix(model, 0, sessions[k].span.start, xs, startFrom);
    }
    return true;
  }

  /** Putting the sessions of a re-routed span in its place keeps the chain. */
  lemma SpliceKeepsTiles(before: seq<Span>, old_: Span, after: seq<Span>, updated: seq<Span>, lo: nat, hi: nat)
    requires Tiles(before + [old_] + after, lo, hi)
    requires Tiles(updated, old_.start, old_.end) && updated != []
    ensures Tiles(before + updated + after, lo, hi)
  {
    var was, now := before + [old_] + after, before + updated + after;
    var k, n := |before|, |updated|;
    forall i | 0 <= i < |now|
      ensures now[i].start < now[i].end
      ensures i + 1 < |now| ==> now[i].end == now[i + 1].start
    {
      if i < k {
        assert now[i] == was[i];
        assert was[i + 1 - 1].end == was[i + 1].start;
        assert now[i + 1] == if i + 1 < k then was[i + 1] else updated[0];
      } else if i < k + n {
        assert now[i] == updated[i - k];
        if i + 1 < k + n {
          assert now[i + 1] == updated[i + 1 - k];
        } else if i + 1 < |now| {
          assert now[i + 1] == after[0] == was[k + 1];
          assert was[k].end == was[k + 1].start;
        }
      } else {
        assert now[i] == was[i - n + 1];
        if i + 1 < |now| {
          assert now[i + 1] == was[i - n + 2];
          assert was[i - n + 1].end == was[i - n + 2].start;
        }
      }
    }
    assert was[k] == old_;
  }

  lemma SpansOfConcat<H(!new), K(!new)>(a: Sessions<H, K>, b: Sessions<H, K>)
    ensures SpansOf(a + b) == SpansOf(a) + SpansOf(b)
  {
  }

  lemma SplicedTiles<H(!new), K(!new)>(before: Sessions<H, K>, updated: Sessions<H, K>, idx: nat, after: Sessions<H, K>,
                                       count: nat)
    requires idx < |before| && after == before[..idx] + updated + before[idx + 1..]
    requires Tiles(SpansOf(before), 0, count) && updated != []
    requires Tiles(SpansOf(updated), before[idx].span.start, before[idx].span.end)
    ensures Tiles(SpansOf(after), 0, count)
  {
    var front, back := before[..idx], before[idx + 1..];
    assert before == front + [before[idx]] + back;
    SpansOfConcat(front + [before[idx]], back);
    SpansOfConcat(front, [before[idx]]);
    assert SpansOf([before[idx]]) == [before[idx].span];
    SpansOfConcat(front + updated, back);
    SpansOfConcat(front, updated);
    SpliceKeepsTiles(SpansOf(front), before[idx].span, SpansOf(back), SpansOf(updated), 0, count);
  }

  /** The new list is the old one with the session at idx, if any, replaced by n new ones. */
  ghost predicate Spliced<H(!new), K(!new)>(before: Sessions<H, K>, idx: nat, n: nat, after: Sessions<H, K>) {
    && n >= 1 && idx <= |before| && |after| == (if before == [] then n else |before| + n - 1) && idx + n <= |after|
    && (forall i :: 0 <= i < idx ==> after[i] == before[i])
    && (forall i :: idx + n <= i < |after| ==> 0 <= i - n + 1 < |before| && after[i] == before[i - n + 1])
  }

  lemma SpliceIndices<H(!new), K(!new)>(before: Sessions<H, K>, updated: Sessions<H, K>, idx: nat,
                                        after: Sessions<H, K>)
    requires idx < |before| && updated != [] && after == before[..idx] + updated + before[idx + 1..]
    ensures Spliced(before, idx, |updated|, after)
    ensures forall i :: idx <= i < idx + |updated| ==> after[i] == updated[i - idx]
  {
  }

  lemma SplicedApart<H(!new), K(!new)>(before: Sessions<H, K>, updated: Sessions<H, K>, idx: nat, after: Sessions<H, K>,
                                       footprint: set<object>, objects: set<object>)
    requires Apart(before) && Inside(before, footprint) && Apart(updated) && Inside(updated, objects)
    requires footprint !! objects
    requires idx < |before| && after == before[..idx] + updated + before[idx + 1..]
    ensures Apart(after)
  {
  }

  /** Replacing the session at idx leaves the sessions on both sides in sync. */
  lemma OthersStayInSync<H(!new), K(!new)>(model: Model<H, K>, before: Sessions<H, K>, idx: nat, n: nat,
                                           after: Sessions<H, K>, ys: seq<H>)
    requires Spliced(before, idx, n, after)
    requires Synced(model, before, 0, idx, ys) && Synced(model, before, idx + 1, |before|, [])
    requires forall i :: idx < i < idx + n ==> after[i].InSync([])
    ensures Synced(model, after, 0, idx, ys) && Synced(model, after, idx + 1, |after|, [])
  {
  }

  lemma SplicedWhole<H(!new), K(!new)>(model: Model<H, K>, maxLength: nat, before: Sessions<H, K>,
                                       updated: Sessions<H, K>,
                                       idx: nat, after: Sessions<H, K>, footprint: set<object>, objects: set<object>)
    requires Chain(model, maxLength, before) && Inside(before, footprint)
    requires updated != [] && Apart(updated) && Inside(updated, objects) && footprint !! objects
    requires forall i :: 0 <= i < |updated| ==> updated[i].Wired(model, maxLength)
    requires idx < |before| && after == before[..idx] + updated + before[idx + 1..]
    requires Tiles(SpansOf(updated), before[idx].span.start, before[idx].span.end)
    ensures Chain(model, maxLength, after) && Inside(after, footprint + objects)
  {
    SplicedTiles(before, updated, idx, after, model.count);
    SplicedApart(before, updated, idx, after, footprint, objects);
    forall i | 0 <= i < |after|
      ensures after[i].Wired(model, maxLength) && after[i].repr <= footprint + objects
    {
      SplicedElement(before, updated, idx, after, i);
    }
  }

  lemma SplicedElement<H(!new), K(!new)>(before: Sessions<H, K>, updated: Sessions<H, K>, idx: nat,
                                         after: Sessions<H, K>, i: nat)
    requires idx < |before| && after == before[..idx] + updated + before[idx + 1..] && i < |after|
    ensures || (exists j :: 0 <= j < |before| && after[i] == before[j])
            || (exists j :: 0 <= j < |updated| && after[i] == updated[j])
  {
    if i < idx {
      assert after[i] == before[i];
    } else if i < idx + |updated| {
      assert after[i] == updated[i - idx];
    } else {
      assert after[i] == before[i - |updated| + 1];
    }
  }

  lemma StepComposes<H, K>(m: Model<H, K>, block: nat, end: nat, xs: seq<H>, ys: seq<H>)
    requires xs <= ys && block <= end
    ensures Layers(m, 0, block, xs) + Layers(m, 0, block, ys)[|xs|..] == Layers(m, 0, block, ys)
    ensures Layers(m, block, end, Layers(m, 0, block, ys)) == Layers(m, 0, end, ys)
  {
    LayersPrefix(m, 0, block, ys, |xs|);
    assert ys[..|xs|] == xs;
    LayersSplit(m, 0, block, end, ys);
  }

  lemma NextStart<H(!new), K(!new)>(sessions: Sessions<H, K>, idx: nat, count: nat)
    requires Tiles(SpansOf(sessions), 0, count) && idx < |sessions|
    ensures sessions[idx].span.end == if idx + 1 < |sessions| then sessions[idx + 1].span.start else count
  {
    var spans := SpansOf(sessions);
    if idx + 1 < |sessions| {
      assert spans[idx].end == spans[idx + 1].start;
    } else {
      assert spans[idx].end == count;
    }
  }

  datatype StepResult<+H> = TooLong | Raised | Output(hidden: seq<H>)

  class Session<H(!new), K(!new)> {
    const grid: Grid<H, K>
    const maxLength: nat
    const maxRetries: nat
    var sessions: Sessions<H, K>
    var position: nat
    ghost var accepted: seq<H>  // all tokens of the steps that returned, less those rolled back
    ghost var footprint: set<object>

    ghost predicate Valid()
      reads this, footprint
    {
      && Inside(sessions, footprint) && this !in footprint && grid !in footprint
      && grid.Valid() && maxRetries >= 1
      && Chain(grid.model, maxLength, sessions)
      && (if sessions == [] then accepted == [] else |accepted| == position)
      && Synced(grid.model, sessions, 0, |sessions|, accepted)
    }

    constructor (grid: Grid<H, K>, maxLength: nat, maxRetries: nat)
      requires grid.Valid() && maxRetries >= 1
      ensures Valid() && sessions == [] && position == 0 && accepted == [] && footprint == {}
      ensures this.grid == grid && this.maxLength == maxLength && this.maxRetries == maxRetries
    {
      this.grid, this.maxLength, this.maxRetries := grid, maxLength, maxRetries;
      this.sessions, this.position, this.accepted, this.footprint := [], 0, [], {};
    }

    /** The position setter. Rolling back keeps exactly the accepted tokens in front of the new position.
        Once sessions exist, it refuses to go forward. */
    method SetPosition(startFrom: nat) returns (ok: bool)
      requires Valid()
      modifies this, footprint
      ensures ok <==> old(sessions) == [] || startFrom <= old(position)
      ensures sessions == old(sessions) && footprint == old(footprint)
      ensures ok ==> Valid() && position == startFrom
      ensures ok ==> accepted == if sessions == [] then [] else old(accepted)[..startFrom]
    {
      position := startFrom;
      ok := RollBackAll(grid.model, sessions, startFrom, accepted, footprint);
      if ok && sessions != [] {
        accepted := accepted[..startFrom];
      }
    }

    /** Opens a session on every server of the route, or raises at the first one that cannot be reached. */
    method EnterServerSessions(spans: seq<Span>) returns (r: Option<Sessions<H, K>>, ghost objects: set<object>)
      requires grid.Valid()
      requires forall i :: 0 <= i < |spans| ==> spans[i].start < spans[i].end <= grid.model.count
      modifies grid
      ensures fresh(objects)
      ensures r.Some? <==> grid.AllConnect(old(grid.time), old(grid.time) + |spans|)
      ensures r.Some? ==> grid.time == old(grid.time) + |spans|
      ensures grid.failures == old(grid.failures) + if r.Some? then 0 else 1
      ensures r.Some? ==>
                && SpansOf(r.value) == spans && Apart(r.value) && Inside(r.value, objects)
                && forall i :: 0 <= i < |spans| ==> r.value[i].Wired(grid.model, maxLength) && r.value[i].InSync([])
    {
      var entered: Sessions<H, K> := [];
      objects := {};
      for k := 0 to |spans|
        invariant grid.time == old(grid.time) + k && grid.failures == old(grid.failures)
        invariant grid.AllConnect(old(grid.time), old(grid.time) + k)
        invariant SpansOf(entered) == spans[..k] && Apart(entered)
        invariant fresh(objects) && Inside(entered, objects)
        invariant forall i :: 0 <= i < k ==> entered[i].Wired(grid.model, maxLength) && entered[i].InSync([])
      {
        var connected := grid.Connect();
        if !connected {
          return None, objects;
        }
        var session := new ServerSession<H, K>(grid.model, spans[k], maxLength);
        entered := entered + [session];
        objects := objects + session.repr;
      }
      assert spans[..|spans|] == spans;
      return Some(entered), objects;
    }

    /** A route for blocks lo .. hi, cut to end there, with a fresh session on each of its servers. */
    method OpenPath(lo: nat, hi: nat) returns (r: Option<Sessions<H, K>>, ghost objects: set<object>)
      requires grid.Valid() && lo < hi <= grid.model.count
      modifies grid
      ensures fresh(objects)
      ensures r.Some? <==> grid.Opens(old(grid.time), lo, hi)
      ensures r.Some? ==>
                |r.value| == grid.RouteLength(old(grid.time), lo, hi) && grid.time == old(grid.time) + 1 + |r.value|
      ensures grid.failures == old(grid.failures) + if r.Some? then 0 else 1
      ensures r.Some? ==>
                && r.value != [] && Tiles(SpansOf(r.value), lo, hi) && Apart(r.value) && Inside(r.value, objects)
                && forall i :: 0 <= i < |r.value| ==> r.value[i].Wired(grid.model, maxLength) && r.value[i].InSync([])
    {
      var route := grid.FindRoute(lo, hi);
      if route.None? {
        return None, {};
      }
      ClippedRouteTiles(route.value, lo, hi);
      var spans := Clip(route.value, hi);
      forall i | 0 <= i < |spans| ensures spans[i].start < spans[i].end <= grid.model.count {
        TileBounds(spans, lo, hi, i);
      }
      r, objects := EnterServerSessions(spans);
    }

    /** There is a session for block `block` at idx, or there are no sessions yet. */
    ghost predicate At(idx: nat, block: nat)
      reads this
    {
      block < grid.model.count &&
      if sessions == [] then idx == 0 && block == 0 else idx < |sessions| && sessions[idx].span.start == block
    }

    /** The footprint grows by new objects only. */
    twostate predicate Grown()
      reads this
    {
      fresh(footprint - old(footprint))
    }

    ghost predicate Shape()
      reads this
    {
      && grid.Valid() && Chain(grid.model, maxLength, sessions)
      && Inside(sessions, footprint) && this !in footprint && grid !in footprint
    }

    ghost function EndOfPath(idx: nat): nat
      requires sessions != [] ==> idx < |sessions|
      reads this
    {
      if sessions == [] then grid.model.count else sessions[idx].span.end
    }

    /** First in sync with no tokens, or the replacement of a session with that history. */
    ghost predicate Inherits(s: ServerSession<H, K>, history: Option<seq<H>>)
      reads s.repr
    {
      if history.None? then s.InSync([]) else s.Replacing(history.value)
    }

    /** The session at idx, if any, is closed; new sessions are opened for its blocks, the first of which
        inherits its history. */
    method Replacements(idx: nat, block: nat) returns (r: Option<Sessions<H, K>>, ghost objects: set<object>)
      requires Shape() && At(idx, block)
      modifies grid, if sessions == [] then {} else {sessions[idx]}
      ensures sessions != [] ==> sessions[idx].history == old(sessions[idx].history)
      ensures fresh(objects)
      ensures r.Some? <==> grid.Opens(old(grid.time), block, EndOfPath(idx))
      ensures r.Some? ==> |r.value| == grid.RouteLength(old(grid.time), block, EndOfPath(idx))
      ensures r.Some? ==> grid.time == old(grid.time) + 1 + |r.value|
      ensures grid.failures == old(grid.failures) + if r.Some? then 0 else 1
      ensures r.Some? ==>
                && r.value != [] && Tiles(SpansOf(r.value), block, EndOfPath(idx))
                && Apart(r.value) && Inside(r.value, objects)
                && (forall i :: 0 <= i < |r.value| ==> r.value[i].Wired(grid.model, maxLength))
                && (forall i :: 0 < i < |r.value| ==> r.value[i].InSync([]))
                && Inherits(r.value[0], if sessions == [] then None else old(sessions[idx].history))
    {
      if sessions == [] {
        r, objects := OpenPath(block, grid.model.count);
        return;
      }
      var failed := sessions[idx];
      failed.closed := true;
      r, objects := OpenPath(block, failed.span.end);
      if r.Some? {
        r.value[0].history := failed.history;
      }
    }

    /** self._server_sessions[idx:idx+1] = updated */
    method Splice(idx: nat, updated: Sessions<H, K>, ghost objects: set<object>)
      requires Shape() && (if sessions == [] then idx == 0 else idx < |sessions|)
      requires updated != [] && Apart(updated) && Inside(updated, objects)
      requires footprint !! objects && this !in objects && grid !in objects
      requires forall i :: 0 <= i < |updated| ==> updated[i].Wired(grid.model, maxLength)
      requires Tiles(SpansOf(updated), if sessions == [] then 0 else sessions[idx].span.start, EndOfPath(idx))
      modifies this`sessions, this`footprint
      ensures Shape() && footprint == old(footprint) + objects
      ensures Spliced(old(sessions), idx, |updated|, sessions)
      ensures forall i :: idx <= i < idx + |updated| ==> sessions[i] == updated[i - idx]
    {
      var before := sessions;
      sessions := if before == [] then updated else before[..idx] + updated + before[idx + 1..];
      ghost var was := footprint;
      footprint := footprint + objects;
      if before != [] {
        SpliceIndices(before, updated, idx, sessions);
        SplicedWhole(grid.model, maxLength, before, updated, idx, sessions, was, objects);
      }
    }

    /** _update_sequence: the replacements take the place of the session at idx, all others stay. */
    method UpdateSequence(idx: nat, block: nat) returns (ok: bool, ghost n: nat)
      requires Shape() && At(idx, block)
      modifies this`sessions, this`footprint, grid, if sessions == [] then {} else {sessions[idx]}
      ensures Shape()
      ensures ok <==> grid.Opens(old(grid.time), block, old(EndOfPath(idx)))
      ensures ok ==>
                n == grid.RouteLength(old(grid.time), block, old(EndOfPath(idx))) && grid.time == old(grid.time) + 1 + n
      ensures grid.failures == old(grid.failures) + if ok then 0 else 1
      ensures !ok ==> sessions == old(sessions) && footprint == old(footprint)
      ensures !ok && sessions != [] ==> sessions[idx].history == old(sessions[idx].history)
      ensures ok ==> Grown()
      ensures ok ==> Spliced(old(sessions), idx, n, sessions) && sessions[idx].span.start == block
      ensures ok ==> forall i :: idx <= i < idx + n ==> fresh(sessions[i].repr)
      ensures ok ==> forall i :: idx < i < idx + n ==> sessions[i].InSync([])
      ensures ok ==> Inherits(sessions[idx], if old(sessions) == [] then None else old(sessions[idx].history))
    {
      hide Chain;
      var updated, objects := Replacements(idx, block);
      if updated.None? {
        return false, 0;
      }
      n := |updated.value|;
      Splice(idx, updated.value, objects);
      assert sessions[idx] == updated.value[0] && SpansOf(updated.value)[0] == sessions[idx].span;
      return true, n;
    }

    /** In the middle of a step from the accepted tokens xs to ys: the sessions before idx have done their
        part, those behind it have not. */
    ghost predicate Midway(idx: nat, block: nat, xs: seq<H>, ys: seq<H>)
      reads this, footprint
    {
      && Shape() && idx <= |sessions|
      && (if sessions == [] then block == 0 && xs == []
          else |xs| == position && block == if idx < |sessions| then sessions[idx].span.start else grid.model.count)
      && Synced(grid.model, sessions, 0, idx, ys)
      && Synced(grid.model, sessions, idx + 1, |sessions|, xs)
    }

    /** The session at idx, before attempt number attemptNo with these hidden states. */
    ghost predicate Ready(idx: nat, xs: seq<H>, hidden: seq<H>, attemptNo: nat)
      reads this, footprint
    {
      Inside(sessions, footprint) && (idx < |sessions| ==>
        if attemptNo == 0 then Synced(grid.model, sessions, idx, idx + 1, xs)
        else sessions[idx] in footprint && (sessions[idx].history.None? || sessions[idx].history == Some(hidden)))
    }

    ghost predicate Askable(idx: nat, block: nat, xs: seq<H>, ys: seq<H>, hidden: seq<H>)
      reads this, footprint
    {
      && Midway(idx, block, xs, ys) && idx < |sessions| && position == |xs|
      && (Synced(grid.model, sessions, idx, idx + 1, xs) || (xs == [] && sessions[idx].Replacing(hidden)))
    }

    /** The session at idx has done its part, with these outputs; those behind it have not yet. */
    ghost predicate BlockDone(idx: nat, block: nat, xs: seq<H>, ys: seq<H>, output: seq<H>)
      reads this, footprint
    {
      && Shape() && idx < |sessions| && sessions[idx].span.start == block
      && Midway(idx + 1, sessions[idx].span.end, xs, ys) && Synced(grid.model, sessions, idx + 1, |sessions|, xs)
      && |xs| <= |ys| && output == Layers(grid.model, 0, sessions[idx].span.end, ys)[|xs|..]
    }

    /** What the session at idx needs for its step, and what the step cannot touch. */
    lemma BeforeAsking(idx: nat, block: nat, hidden: seq<H>, xs: seq<H>, ys: seq<H>)
      requires Askable(idx, block, xs, ys, hidden) && xs <= ys && |ys| <= maxLength
      requires hidden == Layers(grid.model, 0, block, ys)[|xs|..]
      ensures var s, prefix := sessions[idx], Layers(grid.model, 0, block, xs);
              && s.Wired(grid.model, maxLength) && s.repr <= footprint && s.span.start == block
              && (s.InSync(prefix) || (prefix == [] && s.Replacing(hidden)))
              && s.span.end == (if idx + 1 < |sessions| then sessions[idx + 1].span.start else grid.model.count)
      ensures forall i :: 0 <= i < |sessions| && i != idx ==> sessions[i].repr !! sessions[idx].repr
    {
      NextStart(sessions, idx, grid.model.count);
    }

    /** The attempt proper, on the session at idx. */
    method AskServer(idx: nat, block: nat, hidden: seq<H>, ghost xs: seq<H>, ghost ys: seq<H>)
      returns (r: Option<seq<H>>)
      requires Askable(idx, block, xs, ys, hidden)
      requires xs <= ys && |ys| <= maxLength
      requires hidden == Layers(grid.model, 0, block, ys)[|xs|..]
      modifies grid, footprint
      ensures r.Some? <==> grid.fates(old(grid.time)) == Delivered
      ensures grid.time == old(grid.time) + 1 && grid.failures == old(grid.failures) + if r.Some? then 0 else 1
      ensures r.Some? ==> BlockDone(idx, block, xs, ys, r.value)
      ensures r.None? ==> Midway(idx, block, xs, ys) && (position == 0 ==> Ready(idx, xs, hidden, 1))
    {
      hide Chain;
      var s := sessions[idx];
      BeforeAsking(idx, block, hidden, xs, ys);
      StepComposes(grid.model, block, s.span.end, xs, ys);
      r := s.Step(grid, hidden, maxLength, Layers(grid.model, 0, block, xs));
    }

    /** A session is in the footprint and no part of any other session. */
    lemma OneSession(idx: nat)
      requires Shape() && (sessions != [] ==> idx < |sessions|)
      ensures sessions != [] ==> sessions[idx] in footprint
      ensures forall i :: 0 <= i < |sessions| && i != idx ==> sessions[idx] !in sessions[i].repr
    {
    }

    /** Whether and how the sessions for all blocks have been opened, from time t0 on. */
    ghost predicate OpenedAll(t0: nat, ok: bool)
      reads this, grid
    {
      && (ok <==> grid.Opens(t0, 0, grid.model.count))
      && (ok ==> |sessions| == grid.RouteLength(t0, 0, grid.model.count) && grid.time == t0 + 1 + |sessions|)
    }

    /** Re-routing while no token has been accepted yet: the step can go on with the new session at idx. */
    method UpdateAtStart(idx: nat, block: nat, hidden: seq<H>, attemptNo: nat, ghost ys: seq<H>) returns (ok: bool)
      requires position == 0 && At(idx, block) && (attemptNo == 0 ==> sessions == [])
      requires Midway(idx, block, [], ys) && Ready(idx, [], hidden, attemptNo)
      modifies this`sessions, this`footprint, grid, footprint
      ensures Grown()
      ensures Midway(idx, block, [], ys) && At(idx, block)
      ensures !ok ==> sessions == old(sessions) && Ready(idx, [], hidden, attemptNo + 1)
      ensures grid.failures == old(grid.failures) + if ok then 0 else 1
      ensures old(sessions) == [] ==> OpenedAll(old(grid.time), ok)
      ensures ok ==> idx < |sessions| && (sessions[idx].InSync([]) || sessions[idx].Replacing(hidden))
    {
      hide Chain;
      ghost var before := sessions;
      OneSession(idx);
      ghost var n;
      ok, n := UpdateSequence(idx, block);
      assert Synced(grid.model, before, 0, idx, ys) && Synced(grid.model, before, idx + 1, |before|, []);
      if ok {
        OthersStayInSync(grid.model, before, idx, n, sessions, ys);
      }
    }

    /** The step can make attempt number attemptNo at this block. At a later position only the first
        attempt still knows that everybody is in sync. */
    ghost predicate Retryable(idx: nat, block: nat, xs: seq<H>, ys: seq<H>, hidden: seq<H>, attemptNo: nat)
      reads this, footprint
    {
      && Shape() && At(idx, block)
      && (attemptNo == 0 || position == 0 ==> Midway(idx, block, xs, ys) && Ready(idx, xs, hidden, attemptNo))
    }

    /** Re-routes on a retry or on the very first step. A step that is to continue accepted tokens ends up
        with a session that stands at position 0. */
    method Prepare(idx: nat, block: nat, hidden: seq<H>, attemptNo: nat, ghost xs: seq<H>, ghost ys: seq<H>)
      returns (ok: bool)
      requires Retryable(idx, block, xs, ys, hidden, attemptNo)
      modifies this`sessions, this`footprint, grid, footprint
      ensures Grown()
      ensures if ok then Shape() && At(idx, block) && idx < |sessions|
              else Retryable(idx, block, xs, ys, hidden, attemptNo + 1)
      ensures position == 0 && ok ==> Askable(idx, block, xs, ys, hidden)
      ensures grid.failures == old(grid.failures) + if ok then 0 else 1
      ensures attemptNo == 0 && old(sessions) != [] ==>
                ok && Askable(idx, block, xs, ys, hidden) && grid.time == old(grid.time) && sessions == old(sessions)
      ensures position == 0 && old(sessions) == [] ==> OpenedAll(old(grid.time), ok)
      ensures position > 0 && (attemptNo > 0 || old(sessions) == []) && ok ==> sessions[idx].position == 0
    {
      hide Chain;
      if sessions != [] && attemptNo == 0 {
        return true;
      }
      if position == 0 {
        assert xs == [];
        ok := UpdateAtStart(idx, block, hidden, attemptNo, ys);
      } else {
        OneSession(idx);
        ghost var n;
        ok, n := UpdateSequence(idx, block);
      }
    }

    lemma StandsReady(idx: nat, block: nat, xs: seq<H>, ys: seq<H>, hidden: seq<H>)
      requires Askable(idx, block, xs, ys, hidden)
      ensures idx < |sessions| && sessions[idx].position == position
    {
    }

    /** One attempt at the block: re-route if need be, then ask the server, unless its session does not
        stand at the client's position. */
    method Attempt(idx: nat, block: nat, hidden: seq<H>, attemptNo: nat, ghost xs: seq<H>, ghost ys: seq<H>)
      returns (r: Option<seq<H>>)
      requires Retryable(idx, block, xs, ys, hidden, attemptNo)
      requires xs <= ys && |ys| <= maxLength
      requires hidden == Layers(grid.model, 0, block, ys)[|xs|..]
      modifies this`sessions, this`footprint, grid, footprint
      ensures Grown()
      ensures r.Some? ==> BlockDone(idx, block, xs, ys, r.value)
      ensures r.None? ==> Retryable(idx, block, xs, ys, hidden, attemptNo + 1)
      ensures AttemptOutcome(old(Here()), Here(), attemptNo, r.Some?)
    {
      hide Chain, Layers, Synced, Askable;
      var ok := Prepare(idx, block, hidden, attemptNo, xs, ys);
      if !ok {
        return None;
      }
      if Askable(idx, block, xs, ys, hidden) {
        StandsReady(idx, block, xs, ys, hidden);
      }
      if sessions[idx].position != position {
        return None;
      }
      r := AskServer(idx, block, hidden, xs, ys);
    }

    ghost function Here(): Mark
      reads this, grid
    {
      Mark(|sessions|, grid.time, grid.failures)
    }

    /** Everything works for the first k requests of a step, or of a block, that begins at this point. */
    ghost predicate CleanFrom(start: Mark, k: nat) { grid.CleanFor(start.sessions, start.time, k) }

    /** The client has got through the first k requests without a failing call. */
    ghost predicate Smooth(start: Mark, now: Mark, k: nat) {
      && now.failures == start.failures
      && now.time == grid.FirstRequest(start.sessions, start.time) + k
      && now.sessions == grid.Servers(start.sessions, start.time)
    }

    /** The client can still take the first session that it opens: no token is accepted, or it has sessions. */
    ghost predicate CanServe(start: Mark)
      reads this`position
    {
      position == 0 || start.sessions > 0
    }

    ghost predicate AttemptOutcome(start: Mark, now: Mark, attemptNo: nat, done: bool)
      reads this`position
    {
      && start.failures <= now.failures
      && (done ==> now.failures == start.failures)
      && (position == 0 && !done ==> now.failures == start.failures + 1)
      && (attemptNo == 0 && CanServe(start) ==>
            (done <==> CleanFrom(start, 1)) && (if done then Smooth(start, now, 1) else now.failures > start.failures))
      && (position > 0 && done ==> attemptNo == 0 && start.sessions > 0)
    }

    /** After some attempts at a block. */
    ghost predicate Tried(start: Mark, now: Mark, attemptNo: nat)
      reads this`position
    {
      && start.failures <= now.failures
      && (attemptNo == 0 ==> now == start)
      && (position == 0 ==> now.failures == start.failures + attemptNo)
      && (attemptNo > 0 && CanServe(start) ==> now.failures > start.failures && !CleanFrom(start, 1))
    }

    ghost predicate BlockOutcome(start: Mark, now: Mark, done: bool)
      reads this`position
    {
      && start.failures <= now.failures
      && (position == 0 && !done ==> now.failures == start.failures + maxRetries)
      && (CanServe(start) ==>
            && (done && now.failures == start.failures <==> CleanFrom(start, 1))
            && (CleanFrom(start, 1) ==> Smooth(start, now, 1))
            && (!done ==> now.failures > start.failures))
      && (position > 0 && done ==> CanServe(start) && now.failures == start.failures)
    }

    lemma AttemptCounts(start: Mark, now: Mark, attemptNo: nat, next: Mark, done: bool)
      requires Tried(start, now, attemptNo) && AttemptOutcome(now, next, attemptNo, done)
      ensures done ==> BlockOutcome(start, next, true)
      ensures !done ==> Tried(start, next, attemptNo + 1)
      ensures !done && attemptNo + 1 == maxRetries ==> BlockOutcome(start, next, false)
    {
    }

    /** All attempts at one block. At position 0 only max_retries failing calls end the step; at a later
        position the block is done if and only if its one request comes through. */
    method RunBlock(idx: nat, block: nat, hidden: seq<H>, ghost xs: seq<H>, ghost ys: seq<H>)
      returns (r: Option<seq<H>>)
      requires maxRetries >= 1 && Retryable(idx, block, xs, ys, hidden, 0)
      requires xs <= ys && |ys| <= maxLength
      requires hidden == Layers(grid.model, 0, block, ys)[|xs|..]
      modifies this`sessions, this`footprint, grid, footprint
      ensures Grown()
      ensures r.Some? ==> BlockDone(idx, block, xs, ys, r.value)
      ensures BlockOutcome(old(Here()), Here(), r.Some?)
    {
      hide Chain, Tried, BlockOutcome, AttemptOutcome;
      ghost var start := Here();
      var attemptNo := 0;
      NotTried(start);
      while true
        invariant attemptNo < maxRetries
        invariant Grown()
        invariant Retryable(idx, block, xs, ys, hidden, attemptNo)
        invariant Tried(start, Here(), attemptNo)
        decreases maxRetries - attemptNo
      {
        ghost var before := Here();
        r := Attempt(idx, block, hidden, attemptNo, xs, ys);
        AttemptCounts(start, before, attemptNo, Here(), r.Some?);
        if r.Some? {
          return;
        }
        if attemptNo + 1 == maxRetries {
          return;
        }
        attemptNo := attemptNo + 1;
      }
    }

    lemma NotTried(start: Mark)
      ensures Tried(start, start, 0)
    {
    }

    /** Between two blocks of a step: hidden are the states of the new tokens in front of blockIdx. */
    ghost predicate Between(serverIdx: nat, blockIdx: nat, xs: seq<H>, ys: seq<H>, hidden: seq<H>)
      reads this, footprint
    {
      && xs <= ys && Midway(serverIdx, blockIdx, xs, ys) && Synced(grid.model, sessions, serverIdx, |sessions|, xs)
      && blockIdx <= grid.model.count && (if blockIdx == 0 then serverIdx == 0 else sessions != [])
      && hidden == Layers(grid.model, 0, blockIdx, ys)[|xs|..]
    }

    /** Behind the last block every session has done its part. */
    lemma Finished(serverIdx: nat, xs: seq<H>, ys: seq<H>, hidden: seq<H>)
      requires Between(serverIdx, grid.model.count, xs, ys, hidden) && grid.model.count > 0
      ensures sessions != [] && |xs| == position && Synced(grid.model, sessions, 0, |sessions|, ys)
      ensures serverIdx == |sessions|
    {
    }

    /** serverIdx sessions into a step. While no call has failed, everything has worked so far; afterwards the
        step is not a clean one any more. */
    ghost predicate Steady(start: Mark, now: Mark, serverIdx: nat, blockIdx: nat)
      reads this`position
    {
      && start.failures <= now.failures
      && (blockIdx == 0 ==> serverIdx == 0 && now == start)
      && (blockIdx > 0 ==>
            && CanServe(start) && now.sessions > 0
            && (if now.failures == start.failures
                then CleanFrom(start, serverIdx) && Smooth(start, now, serverIdx)
                else position == 0 && !grid.Clean(start.sessions, start.time)))
    }

    /** Why the step cannot go on. */
    ghost predicate Stuck(start: Mark, now: Mark)
      reads this`position
    {
      && start.failures <= now.failures
      && (position == 0 ==> now.failures >= start.failures + maxRetries)
      && (CanServe(start) ==> now.failures > start.failures && !grid.Clean(start.sessions, start.time))
    }

    /** One more block: the step is still steady, or stuck. */
    lemma SteadyOrStuck(start: Mark, now: Mark, serverIdx: nat, blockIdx: nat, next: Mark, done: bool, nextBlock: nat)
      requires grid.Valid() && Steady(start, now, serverIdx, blockIdx) && BlockOutcome(now, next, done)
      requires now.sessions > 0 ==> serverIdx < now.sessions
      requires done ==> nextBlock > 0 && next.sessions > 0
      ensures if done then Steady(start, next, serverIdx + 1, nextBlock) else Stuck(start, next)
    {
      if now.failures == start.failures {
        if blockIdx == 0 {
          if grid.Clean(start.sessions, start.time) {
            assert grid.Servers(start.sessions, start.time) >= 1;
          }
        } else {
          assert CleanFrom(now, 1) <==> grid.fates(now.time) == Delivered;
          assert now.time == grid.FirstRequest(start.sessions, start.time) + serverIdx;
        }
      }
    }

    /** Behind the last block: the step was clean exactly if no call failed. */
    ghost predicate Through(start: Mark, now: Mark)
      reads this`position
    {
      && start.failures <= now.failures && CanServe(start)
      && (now.failures == start.failures <==> grid.Clean(start.sessions, start.time))
      && (grid.Clean(start.sessions, start.time) ==> Smooth(start, now, grid.Servers(start.sessions, start.time)))
      && (position > 0 ==> now.failures == start.failures)
    }

    lemma FirstAttempt(serverIdx: nat, blockIdx: nat, xs: seq<H>, ys: seq<H>, hidden: seq<H>)
      requires Between(serverIdx, blockIdx, xs, ys, hidden) && blockIdx < grid.model.count
      ensures Retryable(serverIdx, blockIdx, xs, ys, hidden, 0)
      ensures sessions != [] ==> serverIdx < |sessions|
    {
    }

    lemma NextBlock(serverIdx: nat, blockIdx: nat, xs: seq<H>, ys: seq<H>, output: seq<H>)
      requires BlockDone(serverIdx, blockIdx, xs, ys, output) && xs <= ys
      ensures blockIdx < sessions[serverIdx].span.end
      ensures Between(serverIdx + 1, sessions[serverIdx].span.end, xs, ys, output)
    {
    }

    /** One round of the loop over the blocks. */
    method Advance(serverIdx: nat, blockIdx: nat, hidden: seq<H>, ghost xs: seq<H>, ghost ys: seq<H>, ghost start: Mark)
      returns (r: Option<seq<H>>, nextIdx: nat, nextBlock: nat)
      requires maxRetries >= 1 && xs <= ys && |ys| <= maxLength
      requires Between(serverIdx, blockIdx, xs, ys, hidden) && blockIdx < grid.model.count
      requires Steady(start, Here(), serverIdx, blockIdx)
      modifies this`sessions, this`footprint, grid, footprint
      ensures Grown()
      ensures r.Some? ==> Between(nextIdx, nextBlock, xs, ys, r.value) && nextBlock > blockIdx
      ensures if r.Some? then Steady(start, Here(), nextIdx, nextBlock) else Stuck(start, Here())
    {
      hide Chain, Steady, Stuck, BlockOutcome;
      nextIdx, nextBlock := 0, 0;
      FirstAttempt(serverIdx, blockIdx, xs, ys, hidden);
      ghost var before := Here();
      r := RunBlock(serverIdx, blockIdx, hidden, xs, ys);
      if r.Some? {
        NextBlock(serverIdx, blockIdx, xs, ys, r.value);
        nextIdx, nextBlock := serverIdx + 1, sessions[serverIdx].span.end;
      }
      SteadyOrStuck(start, before, serverIdx, blockIdx, Here(), r.Some?, nextBlock);
    }

    lemma BeforeFirst(inputs: seq<H>)
      requires Valid()
      ensures Between(0, 0, accepted, accepted + inputs, inputs)
    {
    }

    /** The loop over the blocks. */
    method RunAllBlocks(inputs: seq<H>, ghost xs: seq<H>, ghost ys: seq<H>) returns (r: Option<seq<H>>)
      requires Valid() && accepted == xs && ys == xs + inputs && |ys| <= maxLength
      modifies this`sessions, this`footprint, grid, footprint
      ensures Grown()
      ensures r.Some? ==>
                Shape() && sessions != [] && |xs| == position && Synced(grid.model, sessions, 0, |sessions|, ys)
      ensures r.Some? ==> r.value == Layers(grid.model, 0, grid.model.count, ys)[|xs|..]
      ensures if r.Some? then Through(old(Here()), Here()) else Stuck(old(Here()), Here())
    {
      hide Chain, Stuck;
      ghost var start := Here();
      var serverIdx, blockIdx := 0, 0;
      var hidden := inputs;
      BeforeFirst(inputs);
      while blockIdx < grid.model.count
        invariant Grown()
        invariant Between(serverIdx, blockIdx, xs, ys, hidden)
        invariant Steady(start, Here(), serverIdx, blockIdx)
        decreases grid.model.count - blockIdx
      {
        hide Steady;
        r, serverIdx, blockIdx := Advance(serverIdx, blockIdx, hidden, xs, ys, start);
        if r.None? {
          return;
        }
        hidden := r.value;
      }
      Finished(serverIdx, xs, ys, hidden);
      return Some(hidden);
    }

    /** The bookkeeping at the end of a step. */
    method Accept(inputs: seq<H>)
      requires Shape() && sessions != [] && |accepted| == position
      requires Synced(grid.model, sessions, 0, |sessions|, accepted + inputs) && maxRetries >= 1
      modifies this`position, this`accepted
      ensures Valid()
      ensures accepted == old(accepted) + inputs && position == old(position) + |inputs|
    {
      position := position + |inputs|;
      accepted := accepted + inputs;
    }

    /** InferenceSession.step. A step that returns gives exactly what recomputing all blocks on the whole
        accepted sequence and the new tokens gives, for the new tokens; and the session is ready for the
        next step. A step that raises out ends the run. If everything works, a step returns, after exactly
        the expected calls, unless the client moved the position forward before it had any session. At
        position 0 it takes max_retries failing calls to make it raise. At a later position it returns if
        and only if everything works: the first failing call is fatal, because a replacement session starts
        at position 0. */
    method Step(inputs: seq<H>) returns (r: StepResult<H>)
      requires Valid()
      modifies this, grid, footprint
      ensures r.TooLong? <==> old(position) + |inputs| > maxLength
      ensures r.TooLong? ==> Valid() && unchanged(this) && unchanged(grid)
      ensures r.Output? ==> Valid() && fresh(footprint - old(footprint)) && sessions != []
      ensures r.Output? ==> accepted == old(accepted) + inputs && position == old(position) + |inputs|
      ensures r.Output? ==> r.hidden == Layers(grid.model, 0, grid.model.count, accepted)[|old(accepted)|..]
      ensures old(position) > 0 && old(sessions) == [] ==> !r.Output?
      ensures grid.failures >= old(grid.failures)
      ensures !r.TooLong? && (old(position) == 0 || old(sessions) != []) ==>
                && (r.Output? && grid.failures == old(grid.failures) <==> grid.Clean(|old(sessions)|, old(grid.time)))
                && (r.Output? && old(position) > 0 ==> grid.failures == old(grid.failures))
                && (r.Raised? ==> grid.failures > old(grid.failures))
                && (grid.Clean(|old(sessions)|, old(grid.time)) ==>
                      Smooth(old(Here()), Here(), grid.Servers(|old(sessions)|, old(grid.time))))
      ensures r.Raised? && old(position) == 0 ==> grid.failures >= old(grid.failures) + maxRetries
    {
      if position + |inputs| > maxLength {
        return TooLong;
      }
      var hidden := RunAllBlocks(inputs, accepted, accepted + inputs);
      if hidden.None? {
        return Raised;
      }
      Accept(inputs);
      return Output(hidden.value);
    }
  }

  // ---- whole runs

  datatype Command<+H> = Feed(tokens: seq<H>) | RollBack(position: nat)

  /** failed is the number of failing calls that the step got over. */
  datatype Event<+H> = Stepped(tokens: seq<H>, output: seq<H>, failed: nat) | RolledBack(position: nat) | Refused

  /** The tokens accepted after a log of events. */
  function AcceptedBy<H>(log: seq<Event<H>>): seq<H> {
    if log == [] then []
    else
      var before := AcceptedBy(log[..|log| - 1]);
      match log[|log| - 1]
      case Stepped(tokens, _, _) => before + tokens
      case RolledBack(p) => if p <= |before| then before[..p] else before
      case Refused => before
  }

  /** Every output in the log is what recomputing all blocks on everything accepted so far gives. */
  ghost predicate Explained<H, K>(m: Model<H, K>, log: seq<Event<H>>) {
    forall i :: 0 <= i < |log| && log[i].Stepped? ==>
      var before := AcceptedBy(log[..i]);
      log[i].output == Layers(m, 0, m.count, before + log[i].tokens)[|before|..]
  }

  /** The position after a log of events. Before the first step it can be set freely. */
  function PositionBy<H>(log: seq<Event<H>>): nat {
    if log == [] then 0
    else
      match log[|log| - 1]
      case Stepped(tokens, _, _) => PositionBy(log[..|log| - 1]) + |tokens|
      case RolledBack(p) => p
      case Refused => PositionBy(log[..|log| - 1])
  }

  ghost predicate Started<H>(log: seq<Event<H>>) {
    exists i :: 0 <= i < |log| && log[i].Stepped?
  }

  /** What a command leads to, after the log so far. */
  ghost predicate Answers<H>(maxLength: nat, log: seq<Event<H>>, command: Command<H>, e: Event<H>) {
    match command
    case Feed(tokens) =>
      if PositionBy(log) + |tokens| > maxLength then e == Refused
      else e.Stepped? && e.tokens == tokens && if PositionBy(log) == 0 then true else Started(log) && e.failed == 0
    case RollBack(p) => e == RolledBack(p) && (Started(log) ==> p <= PositionBy(log))
  }

  ghost predicate Answered<H>(maxLength: nat, log: seq<Event<H>>, commands: seq<Command<H>>) {
    && |log| <= |commands|
    && forall i :: 0 <= i < |log| ==> Answers(maxLength, log[..i], commands[i], log[i])
  }

  /** Why a run can break off at a command during which this many calls failed. */
  ghost predicate BreaksOff<H>(log: seq<Event<H>>, command: Command<H>, failed: nat) {
    match command
    case Feed(_) => failed > 0 || (!Started(log) && PositionBy(log) > 0)
    case RollBack(p) => Started(log) && p > PositionBy(log)
  }

  function FailedIn<H>(log: seq<Event<H>>): nat {
    if log == [] then 0
    else FailedIn(log[..|log| - 1]) + if log[|log| - 1].Stepped? then log[|log| - 1].failed else 0
  }

  lemma LogAppend<H, K>(m: Model<H, K>, maxLength: nat, log: seq<Event<H>>, commands: seq<Command<H>>, e: Event<H>)
    requires Explained(m, log) && Answered(maxLength, log, commands) && |log| < |commands|
    requires Answers(maxLength, log, commands[|log|], e)
    requires e.Stepped? ==> var before := AcceptedBy(log);
                            e.output == Layers(m, 0, m.count, before + e.tokens)[|before|..]
    ensures Explained(m, log + [e]) && Answered(maxLength, log + [e], commands)
  {
    var longer := log + [e];
    assert longer[..|log|] == log;
    forall i | 0 <= i < |log| ensures longer[..i] == log[..i] {
    }
  }

  lemma LogGrows<H>(log: seq<Event<H>>, e: Event<H>)
    ensures (log + [e])[..|log|] == log
    ensures Started(log + [e]) <==> Started(log) || e.Stepped?
    ensures FailedIn(log + [e]) == FailedIn(log) + if e.Stepped? then e.failed else 0
  {
    var longer := log + [e];
    assert longer[..|log|] == log;
    assert e.Stepped? ==> longer[|log|].Stepped?;
    assert forall i :: 0 <= i < |log| ==> longer[i] == log[i];
  }

  /** The session is where the log says. */
  ghost predicate StandsAt<H(!new), K(!new)>(session: Session<H, K>, log: seq<Event<H>>)
    reads session
  {
    && session.accepted == AcceptedBy(log) && session.position == PositionBy(log)
    && (session.sessions != [] <==> Started(log))
  }

  /** One command. None stands for a call that raises out. */
  method Execute<H(!new), K(!new)>(session: Session<H, K>, command: Command<H>, ghost log: seq<Event<H>>)
    returns (e: Option<Event<H>>)
    requires session.Valid() && StandsAt(session, log)
    modifies session, session.grid, session.footprint
    ensures session.grid.failures >= old(session.grid.failures)
    ensures e.None? ==> BreaksOff(log, command, session.grid.failures - old(session.grid.failures))
    ensures e.Some? ==>
              session.Valid() && fresh(session.footprint - old(session.footprint)) && StandsAt(session, log + [e.value])
    ensures e.Some? ==> Answers(session.maxLength, log, command, e.value)
    ensures e.Some? ==>
              session.grid.failures - old(session.grid.failures) == if e.value.Stepped? then e.value.failed else 0
    ensures e.Some? && e.value.Stepped? ==>
              var before := AcceptedBy(log);
              e.value.output
              == Layers(session.grid.model, 0, session.grid.model.count, before + e.value.tokens)[|before|..]
  {
    match command {
    case Feed(tokens) =>
      var before := session.grid.failures;
      var r := session.Step(tokens);
      if r.Raised? {
        return None;
      }
      var failed := session.grid.failures - before;
      e := Some(if r.Output? then Stepped(tokens, r.hidden, failed) else Refused);
    case RollBack(p) =>
      var ok := session.SetPosition(p);
      if !ok {
        return None;
      }
      e := Some(RolledBack(p));
    }
    LogGrows(log, e.value);
  }

  /** Any run of steps and position rollbacks, until one of them raises: whatever servers fail, whatever
      routes are chosen, however requests are chunked, every output that comes back is the recomputed one.
      A run breaks off only at a step during which some call fails, or where the client moves the position
      forward. Steps at a later position never get over a failing call. */
  method RunCommands<H(!new), K(!new)>(session: Session<H, K>, commands: seq<Command<H>>)
    returns (log: seq<Event<H>>, ghost failed: nat)
    requires session.Valid() && session.sessions == [] && session.position == 0
    modifies session, session.grid, session.footprint
    ensures Explained(session.grid.model, log) && Answered(session.maxLength, log, commands)
    ensures session.grid.failures == old(session.grid.failures) + FailedIn(log) + failed
    ensures if |log| < |commands| then BreaksOff(log, commands[|log|], failed) else failed == 0
  {
    log, failed := [], 0;
    for k := 0 to |commands|
      invariant session.Valid() && fresh(session.footprint - old(session.footprint))
      invariant |log| == k && Explained(session.grid.model, log) && Answered(session.maxLength, log, commands)
      invariant session.grid.failures == old(session.grid.failures) + FailedIn(log)
      invariant StandsAt(session, log)
    {
      ghost var before := session.grid.failures;
      var e := Execute(session, commands[k], log);
      if e.None? {
        failed := session.grid.failures - before;
        return;
      }
      LogAppend(session.grid.model, session.maxLength, log, commands, e.value);
      LogGrows(log, e.value);
      log := log + [e.value];
    }
  }

  /** A run on a grid where everything works but one single reply, at time 3, is lost: the first step is
      accepted, and the second, whatever its tokens and however many retries are allowed, raises. */
  method LoseOneReply<H(!new), K(!new)>(model: Model<H, K>, maxLength: nat, maxRetries: nat, x: seq<H>, y: seq<H>)
    returns (first: StepResult<H>, second: StepResult<H>, grid: Grid<H, K>)
    requires model.count >= 1 && maxRetries >= 1 && x != [] && |x| + |y| <= maxLength
    ensures forall t: nat :: grid.fates(t) == if t == 3 then ReplyLost else Delivered
    ensures forall t: nat :: grid.connects(t)
    ensures forall t: nat, lo: nat, hi: nat :: lo < hi ==> grid.routes(t, lo, hi).Some?
    ensures first.Output? && second.Raised?
  {
    grid := new Grid<H, K>(
      model, (t: nat, lo: nat, hi: nat) => if lo < hi then Some([Span(0, lo, hi)]) else None, (t: nat) => true,
      (t: nat) => if t == 3 then ReplyLost else Delivered, (t: nat, i: nat) => 1, 1, false);
    var session := new Session<H, K>(grid, maxLength, maxRetries);
    assert grid.RouteLength(0, 0, model.count) == 1;
    assert grid.Clean(0, 0);
    first := session.Step(x);
    assert grid.time == 3 && |session.sessions| == 1;
    assert !grid.Clean(1, 3) by {
      assert grid.fates(3) != Delivered;
    }
    second := session.Step(y);
  }
}

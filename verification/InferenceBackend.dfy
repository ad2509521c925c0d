/** The server side of inference: the chunked step of petals/server/backend.py over an attention cache
    that is written in place, and the request loop of petals/server/block_functions.py. */
module InferenceBackend {
  import opened Options
  import opened CausalBlocks

  const MAX_SHORT_INFERENCE_TOKENS: nat := 128
  const MAX_NF4_SHORT_INFERENCE_TOKENS: nat := 1

  /** _estimate_max_chunk_length: as many tokens as keep the attention logits within the byte limit, and
      at least one. */
  function EstimateMaxChunkLength(maxChunkBytes: nat, bytesPerAttention: nat, prefixLength: nat, seqLength: nat)
    : (n: nat)
    requires bytesPerAttention > 0 && prefixLength + seqLength > 0
    ensures n >= 1
    ensures n > 1 ==> n * (bytesPerAttention * (prefixLength + seqLength)) <= maxChunkBytes
    ensures (n + 1) * (bytesPerAttention * (prefixLength + seqLength)) > maxChunkBytes
  {
    var perToken := bytesPerAttention * (prefixLength + seqLength);
    var fit := maxChunkBytes / perToken;
    assert fit * perToken <= maxChunkBytes < (fit + 1) * perToken;
    assert fit < 1 ==> (1 + 1) * perToken > maxChunkBytes;
    if fit < 1 then 1 else fit
  }

  /** _update_cache_inplace: only the entries from prefixLength on are written. */
  method UpdateCacheInPlace<K>(cache: array<K>, newEntries: seq<K>, prefixLength: nat)
    requires prefixLength <= |newEntries| <= cache.Length
    modifies cache
    ensures cache[..] == old(cache[..prefixLength]) + newEntries[prefixLength..] + old(cache[|newEntries|..])
  {
    forall i | prefixLength <= i < |newEntries| {
      cache[i] := newEntries[i];
    }
  }

  /** inference_step of one block, in chunks of any positive length. The result and the cache are those
      of one single call on the whole input: the entries before prefixLength stay, the new ones follow,
      and what lies behind them is left as it was. */
  method InferenceStep<H, K>(m: Model<H, K>, block: nat, cache: array<K>, hidden: seq<H>, prefixLength: nat,
                             maxChunkLength: nat)
    returns (output: seq<H>)
    requires maxChunkLength >= 1 && hidden != []
    requires prefixLength + |hidden| <= cache.Length
    modifies cache
    ensures output == Outputs(m, block, hidden, old(cache[..prefixLength]))
    ensures cache[..prefixLength + |hidden|] == NewEntries(m, block, hidden, old(cache[..prefixLength]))
    ensures cache[prefixLength + |hidden|..] == old(cache[prefixLength + |hidden|..])
    ensures |output| == |hidden| && cache[..prefixLength] == old(cache[..prefixLength])
    ensures forall j :: 0 <= j < |hidden| ==>
              && cache[prefixLength + j] == m.kv(block, prefixLength + j, hidden[j])
              && output[j] == m.attend(block, cache[..][..prefixLength + j + 1], hidden[j])
  {
    var layerPast := cache[..prefixLength];
    ghost var past := layerPast;
    output, layerPast := RunChunks(m, block, hidden, layerPast, maxChunkLength);
    hide Outputs, NewEntries;
    ghost var stale := cache[|layerPast|..];
    PastIsPrefix(m, block, hidden, past);
    UpdateCacheInPlace(cache, layerPast, prefixLength);
    assert layerPast == past + layerPast[prefixLength..];
    assert cache[..] == layerPast + stale;
    assert cache[..prefixLength + |hidden|] == cache[..][..prefixLength + |hidden|];
    assert cache[prefixLength + |hidden|..] == cache[..][prefixLength + |hidden|..];
    TokenByToken(m, block, hidden, past, cache[..]);
    assert cache[..prefixLength] == cache[..][..prefixLength];
  }

  lemma PastIsPrefix<H, K>(m: Model<H, K>, block: nat, hidden: seq<H>, past: seq<K>)
    ensures NewEntries(m, block, hidden, past)[..|past|] == past
  {
  }

  /** The chunks of a step, one after the other, each behind the entries of those before it. */
  method RunChunks<H, K>(m: Model<H, K>, block: nat, hidden: seq<H>, past: seq<K>, maxChunkLength: nat)
    returns (output: seq<H>, layerPast: seq<K>)
    requires maxChunkLength >= 1
    ensures output == Outputs(m, block, hidden, past) && layerPast == NewEntries(m, block, hidden, past)
  {
    output, layerPast := [], past;
    var offset := 0;
    while offset < |hidden|
      invariant 0 <= offset <= |hidden|
      invariant output == Outputs(m, block, hidden[..offset], past)
      invariant layerPast == NewEntries(m, block, hidden[..offset], past)
    {
      var end := if offset + maxChunkLength < |hidden| then offset + maxChunkLength else |hidden|;
      var chunk := hidden[offset..end];
      ChunksCompose(m, block, hidden[..offset], chunk, past);
      assert hidden[..offset] + chunk == hidden[..end];
      output := output + Outputs(m, block, chunk, layerPast);
      layerPast := NewEntries(m, block, chunk, layerPast);
      offset := end;
    }
    assert hidden[..|hidden|] == hidden;
  }

  /** A cache behind one call, token by token. */
  lemma TokenByToken<H, K>(m: Model<H, K>, block: nat, hidden: seq<H>, past: seq<K>, cache: seq<K>)
    requires |past| + |hidden| <= |cache| && cache[..|past| + |hidden|] == NewEntries(m, block, hidden, past)
    ensures cache[..|past|] == past
    ensures forall j :: 0 <= j < |hidden| ==>
              && cache[|past| + j] == m.kv(block, |past| + j, hidden[j])
              && Outputs(m, block, hidden, past)[j] == m.attend(block, cache[..|past| + j + 1], hidden[j])
  {
    var entries, outputs := NewEntries(m, block, hidden, past), Outputs(m, block, hidden, past);
    assert entries[..|past|] == past;
    forall j | 0 <= j < |hidden|
      ensures cache[|past| + j] == m.kv(block, |past| + j, hidden[j])
      ensures outputs[j] == m.attend(block, cache[..|past| + j + 1], hidden[j])
    {
      assert cache[|past| + j] == entries[|past| + j];
      assert cache[..|past| + j + 1] == entries[..|past| + j + 1];
    }
  }

  /** Short requests go through all blocks in one call. */
  predicate CanMergePools(batch: nat, tokens: nat, nf4: bool) {
    batch * tokens <= if nf4 then MAX_NF4_SHORT_INFERENCE_TOKENS else MAX_SHORT_INFERENCE_TOKENS
  }

  /** How many tasks a request is for the pools of its blocks. */
  function PoolTasks(batch: nat, tokens: nat, nf4: bool, blocks: nat): nat {
    if tokens == 0 then 0 else if CanMergePools(batch, tokens, nf4) then 1 else blocks
  }

  /** One task exactly if the request has at most 128 tokens in all, or 1 for the four-bit format. */
  lemma PoolTasksExactly(batch: nat, tokens: nat, nf4: bool, blocks: nat)
    requires tokens > 0 && blocks != 1
    ensures PoolTasks(batch, tokens, nf4, blocks) == 1 <==> (if nf4 then batch * tokens <= 1 else batch * tokens <= 128)
    ensures PoolTasks(batch, tokens, nf4, blocks) == 1 || PoolTasks(batch, tokens, nf4, blocks) == blocks
  {
  }

  ghost function CacheObjects<K>(caches: seq<array<K>>): (r: set<object>)
    ensures forall i :: 0 <= i < |caches| ==> caches[i] in r
  {
    set i | 0 <= i < |caches| :: caches[i] as object
  }

  ghost predicate Distinct<K>(caches: seq<array<K>>) {
    forall i, j :: 0 <= i < j < |caches| ==> caches[i] != caches[j]
  }

  // ---- what a server computes, whatever its caches contain

  /** The caches of a server's blocks as values. */
  type Contents<K> = seq<seq<K>>

  ghost predicate AllAtLeast<K>(contents: Contents<K>, n: nat) {
    forall i :: 0 <= i < |contents| ==> n <= |contents[i]|
  }

  ghost predicate Match<K>(caches: seq<array<K>>, contents: Contents<K>)
    reads caches
  {
    |caches| == |contents| && forall i :: 0 <= i < |caches| ==> caches[i][..] == contents[i]
  }

  /** The hidden states in front of block first + k, when the caches are taken to hold startFrom tokens. */
  function BeforeBlock<H, K>(m: Model<H, K>, first: nat, contents: Contents<K>, startFrom: nat, hidden: seq<H>, k: nat)
    : (r: seq<H>)
    requires k <= |contents| && AllAtLeast(contents, startFrom)
    ensures |r| == |hidden|
  {
    if k == 0 then hidden
    else
      Outputs(m, first + k - 1, BeforeBlock(m, first, contents, startFrom, hidden, k - 1), contents[k - 1][..startFrom])
  }

  /** The cache of block first + i behind the step: the entries in front of startFrom stay, new ones follow,
      and what lies behind them stays, too. */
  function CacheAfter<H, K>(m: Model<H, K>, first: nat, contents: Contents<K>, startFrom: nat, hidden: seq<H>, i: nat)
    : (r: seq<K>)
    requires i < |contents| && AllAtLeast(contents, startFrom + |hidden|)
    ensures |r| == |contents[i]|
  {
    NewEntries(m, first + i, BeforeBlock(m, first, contents, startFrom, hidden, i), contents[i][..startFrom])
    + contents[i][startFrom + |hidden|..]
  }

  function ContentsAfter<H, K>(m: Model<H, K>, first: nat, contents: Contents<K>, startFrom: nat, hidden: seq<H>)
    : (r: Contents<K>)
    requires AllAtLeast(contents, startFrom + |hidden|)
    ensures |r| == |contents|
  {
    seq(|contents|, i requires 0 <= i < |contents| => CacheAfter(m, first, contents, startFrom, hidden, i))
  }

  /** Progress of a step through the blocks of a server: the first k caches are written, the others not yet. */
  ghost predicate PartlyServed<H, K>(m: Model<H, K>, first: nat, caches: seq<array<K>>, contents: Contents<K>,
                                     startFrom: nat, hidden: seq<H>, k: nat)
    requires AllAtLeast(contents, startFrom + |hidden|)
    reads caches
  {
    && |caches| == |contents|
    && forall i :: 0 <= i < |caches| ==>
         caches[i][..] == if i < k then CacheAfter(m, first, contents, startFrom, hidden, i) else contents[i]
  }

  /** Block first + i's inference step, as one step of the server's pipeline. */
  method StepBlock<H, K>(m: Model<H, K>, first: nat, i: nat, cache: array<K>, hidden: seq<H>, prefixLength: nat,
                         chunkLength: nat, ghost contents: Contents<K>, ghost input: seq<H>)
    returns (output: seq<H>)
    requires chunkLength >= 1 && input != []
    requires i < |contents| && AllAtLeast(contents, prefixLength + |input|) && cache[..] == contents[i]
    requires hidden == BeforeBlock(m, first, contents, prefixLength, input, i)
    modifies cache
    ensures cache[..] == CacheAfter(m, first, contents, prefixLength, input, i)
    ensures output == BeforeBlock(m, first, contents, prefixLength, input, i + 1)
  {
    assert cache[..prefixLength] == contents[i][..prefixLength];
    assert cache[prefixLength + |hidden|..] == contents[i][prefixLength + |hidden|..];
    output := InferenceStep(m, first + i, cache, hidden, prefixLength, chunkLength);
    assert cache[..] == cache[..prefixLength + |hidden|] + cache[prefixLength + |hidden|..];
  }

  /** The merged pool: blocks lo .. hi of the server run in one call. With one block it is the separate
      pool of that block. */
  method MergedInferenceStep<H, K>(m: Model<H, K>, first: nat, caches: seq<array<K>>, lo: nat, hi: nat, hidden: seq<H>,
                                   prefixLength: nat, chunkLength: nat -> nat, ghost contents: Contents<K>,
                                   ghost input: seq<H>)
    returns (output: seq<H>)
    requires lo <= hi <= |caches| && Distinct(caches) && input != []
    requires forall i: nat :: chunkLength(i) >= 1
    requires AllAtLeast(contents, prefixLength + |input|)
    requires PartlyServed(m, first, caches, contents, prefixLength, input, lo)
    requires hidden == BeforeBlock(m, first, contents, prefixLength, input, lo)
    modifies caches
    ensures PartlyServed(m, first, caches, contents, prefixLength, input, hi)
    ensures output == BeforeBlock(m, first, contents, prefixLength, input, hi)
  {
    hide CacheAfter, BeforeBlock;
    output := hidden;
    for k := lo to hi
      invariant PartlyServed(m, first, caches, contents, prefixLength, input, k)
      invariant output == BeforeBlock(m, first, contents, prefixLength, input, k)
    {
      output := StepBlock(m, first, k, caches[k], output, prefixLength, chunkLength(k), contents, input);
    }
  }

  // ---- when that is what recomputing everything gives

  /** A cache of block first + i holds exactly the entries of these inputs of the server, in front of
      whatever stale entries may follow. */
  ghost predicate CacheHolds<H, K>(m: Model<H, K>, first: nat, i: nat, cache: seq<K>, inputs: seq<H>) {
    |inputs| <= |cache| && cache[..|inputs|] == Entries(m, first + i, Layers(m, first, first + i, inputs))
  }

  ghost predicate Hold<H, K>(m: Model<H, K>, first: nat, contents: Contents<K>, inputs: seq<H>) {
    forall i :: 0 <= i < |contents| ==> CacheHolds(m, first, i, contents[i], inputs)
  }

  /** Rolling back keeps the shorter prefix intact: the caches need no cleaning. */
  lemma HoldPrefix<H, K>(m: Model<H, K>, first: nat, contents: Contents<K>, inputs: seq<H>, n: nat)
    requires Hold(m, first, contents, inputs) && n <= |inputs|
    ensures Hold(m, first, contents, inputs[..n])
  {
    forall i | 0 <= i < |contents|
      ensures CacheHolds(m, first, i, contents[i], inputs[..n])
    {
      assert CacheHolds(m, first, i, contents[i], inputs);
      assert contents[i][..n] == contents[i][..|inputs|][..n];
      EntriesPrefix(m, first + i, Layers(m, first, first + i, inputs), n);
      LayersPrefix(m, first, first + i, inputs, n);
    }
  }

  /** Block first + i's part of a step: from the hidden states in front of it to those behind it. */
  lemma BlockStep<H, K>(m: Model<H, K>, first: nat, i: nat, inputs: seq<H>, fresh_: seq<H>)
    ensures var past := Entries(m, first + i, Layers(m, first, first + i, inputs));
            var hidden := Layers(m, first, first + i, inputs + fresh_)[|inputs|..];
            && Outputs(m, first + i, hidden, past) == Layers(m, first, first + i + 1, inputs + fresh_)[|inputs|..]
            && NewEntries(m, first + i, hidden, past)
               == Entries(m, first + i, Layers(m, first, first + i, inputs + fresh_))
  {
    var all := Layers(m, first, first + i, inputs + fresh_);
    var before := Layers(m, first, first + i, inputs);
    var hidden := all[|inputs|..];
    LayersCausal(m, first, first + i, inputs, fresh_);
    assert before + hidden == all;
    ContinueIsRecompute(m, first + i, before, hidden);
    LayersSplit(m, first, first + i, first + i + 1, inputs + fresh_);
    assert Layers(m, first + i, first + i + 1, all)
        == Layers(m, first + i + 1, first + i + 1, Outputs(m, first + i, all, []));
  }

  lemma {:induction false} ExactPrefix<H, K>(m: Model<H, K>, first: nat, contents: Contents<K>, inputs: seq<H>,
                                             hidden: seq<H>, k: nat)
    requires Hold(m, first, contents, inputs) && k <= |contents| && AllAtLeast(contents, |inputs| + |hidden|)
    ensures BeforeBlock(m, first, contents, |inputs|, hidden, k)
              == Layers(m, first, first + k, inputs + hidden)[|inputs|..]
    ensures k < |contents| ==>
              CacheHolds(m, first, k, CacheAfter(m, first, contents, |inputs|, hidden, k), inputs + hidden)
  {
    if k == 0 {
      assert (inputs + hidden)[|inputs|..] == hidden;
    } else {
      ExactPrefix(m, first, contents, inputs, hidden, k - 1);
      assert CacheHolds(m, first, k - 1, contents[k - 1], inputs);
      BlockStep(m, first, k - 1, inputs, hidden);
    }
    if k < |contents| {
      assert CacheHolds(m, first, k, contents[k], inputs);
      BlockStep(m, first, k, inputs, hidden);
      var after := CacheAfter(m, first, contents, |inputs|, hidden, k);
      assert after[..|inputs| + |hidden|]
          == NewEntries(m, first + k, BeforeBlock(m, first, contents, |inputs|, hidden, k), contents[k][..|inputs|]);
    }
  }

  /** A request that starts at a position the caches reach up to is answered with the recomputed states, and
      the caches then hold the new sequence. */
  lemma ServedIsRecomputed<H, K>(m: Model<H, K>, first: nat, contents: Contents<K>, inputs: seq<H>, startFrom: nat,
                                 hidden: seq<H>)
    requires Hold(m, first, contents, inputs) && startFrom <= |inputs| && AllAtLeast(contents, startFrom + |hidden|)
    ensures BeforeBlock(m, first, contents, startFrom, hidden, |contents|)
         == Layers(m, first, first + |contents|, inputs[..startFrom] + hidden)[startFrom..]
    ensures Hold(m, first, ContentsAfter(m, first, contents, startFrom, hidden), inputs[..startFrom] + hidden)
  {
    hide CacheHolds, CacheAfter, BeforeBlock, Layers;
    HoldPrefix(m, first, contents, inputs, startFrom);
    ExactPrefix(m, first, contents, inputs[..startFrom], hidden, |contents|);
    forall i | 0 <= i < |contents|
      ensures CacheHolds(m, first, i, CacheAfter(m, first, contents, startFrom, hidden, i),
                         inputs[..startFrom] + hidden)
    {
      ExactPrefix(m, first, contents, inputs[..startFrom], hidden, i);
    }
  }

  // ---- positions beyond what the caches hold

  /** Blocks whose entries are never zero and whose output tells whether they saw a zero entry. */
  function Watchful(count: nat): Model<int, int> {
    Model(count, (block: nat, position: nat, h: int) => 1,
          (block: nat, entries: seq<int>, h: int) => if 0 in entries then 1 else 0, 0)
  }

  lemma {:induction false} NothingToSee(count: nat, lo: nat, hi: nat, xs: seq<int>)
    requires lo < hi
    ensures forall i :: 0 <= i < |xs| ==> Layers(Watchful(count), lo, hi, xs)[i] == 0
    decreases hi - lo
  {
    var ys := Outputs(Watchful(count), lo, xs, []);
    assert forall e :: e in NewEntries(Watchful(count), lo, xs, []) ==> e == 1;
    if lo + 1 < hi {
      NothingToSee(count, lo + 1, hi, ys);
    }
  }

  /** Caches that were filled up to some token and are zero behind it. */
  ghost predicate ZeroAt(contents: Contents<int>, n: nat) {
    forall i :: 0 <= i < |contents| ==> n < |contents[i]| && contents[i][n] == 0
  }

  lemma ZeroIsSeen(contents: Contents<int>, n: nat, startFrom: nat, hidden: seq<int>, k: nat)
    requires ZeroAt(contents, n) && n < startFrom && AllAtLeast(contents, startFrom) && 0 < k <= |contents|
    ensures forall j :: 0 <= j < |hidden| ==>
              BeforeBlock(Watchful(|contents|), 0, contents, startFrom, hidden, k)[j] == 1
  {
    var past := contents[k - 1][..startFrom];
    var input := BeforeBlock(Watchful(|contents|), 0, contents, startFrom, hidden, k - 1);
    var output := Outputs(Watchful(|contents|), k - 1, input, past);
    forall j | 0 <= j < |hidden| ensures output[j] == 1 {
      var seen := NewEntries(Watchful(|contents|), k - 1, input, past)[..|past| + j + 1];
      assert seen[n] == 0;
    }
  }

  /** Whatever the missing tokens are taken to be, the answer at a position beyond a zero entry is wrong. */
  lemma BeyondIsWrong(contents: Contents<int>, n: nat, startFrom: nat, prefix: seq<int>, hidden: seq<int>)
    requires ZeroAt(contents, n) && n < startFrom && AllAtLeast(contents, startFrom) && contents != []
    requires |prefix| == startFrom && hidden != []
    ensures BeforeBlock(Watchful(|contents|), 0, contents, startFrom, hidden, |contents|)
         != Layers(Watchful(|contents|), 0, |contents|, prefix + hidden)[startFrom..]
  {
    ZeroIsSeen(contents, n, startFrom, hidden, |contents|);
    NothingToSee(|contents|, 0, |contents|, prefix + hidden);
    assert Layers(Watchful(|contents|), 0, |contents|, prefix + hidden)[startFrom..][0] == 0;
  }

  /** The server is right about a request: some startFrom tokens that agree with what it was given explain
      the answer. */
  ghost predicate RightAnswer<H(!new), K>(m: Model<H, K>, contents: Contents<K>, inputs: seq<H>, startFrom: nat,
                                          hidden: seq<H>)
    requires AllAtLeast(contents, startFrom)
  {
    exists prefix: seq<H> ::
      && |prefix| == startFrom && (prefix <= inputs || inputs <= prefix)
      && BeforeBlock(m, 0, contents, startFrom, hidden, |contents|)
         == Layers(m, 0, |contents|, prefix + hidden)[startFrom..]
  }

  lemma WrongBeyondPrefix(numBlocks: nat, maxLength: nat, n: nat, startFrom: nat)
    requires numBlocks >= 1 && n < startFrom < maxLength
    ensures exists m: Model<int, int>, contents: Contents<int>, inputs: seq<int>, hidden: seq<int> ::
              && |contents| == numBlocks && (forall i :: 0 <= i < numBlocks ==> |contents[i]| == maxLength)
              && |inputs| == n && Hold(m, 0, contents, inputs) && startFrom + |hidden| <= maxLength
              && !RightAnswer(m, contents, inputs, startFrom, hidden)
  {
    var inputs := seq(n, _ => 0);
    var cache := seq(maxLength, j => if j < n then 1 else 0);
    var contents := seq(numBlocks, _ => cache);
    assert Hold(Watchful(numBlocks), 0, contents, inputs) by {
      forall i | 0 <= i < numBlocks ensures CacheHolds(Watchful(numBlocks), 0, i, contents[i], inputs) {
        assert cache[..n] == Entries(Watchful(numBlocks), i, Layers(Watchful(numBlocks), 0, i, inputs));
      }
    }
    if RightAnswer(Watchful(numBlocks), contents, inputs, startFrom, [0]) {
      var prefix: seq<int> :| |prefix| == startFrom &&
        BeforeBlock(Watchful(numBlocks), 0, contents, startFrom, [0], |contents|)
        == Layers(Watchful(numBlocks), 0, |contents|, prefix + [0])[startFrom..];
      BeyondIsWrong(contents, n, startFrom, prefix, [0]);
    }
    assert !RightAnswer(Watchful(numBlocks), contents, inputs, startFrom, [0]);
  }

  /** A server of numBlocks blocks that holds n tokens answers rightly at position startFrom, for every model
      and every contents, if and only if startFrom is at most n. This is the test that the code means to
      make, with prefix_length for n, and that never fires. */
  lemma RightIffWithinPrefix(numBlocks: nat, maxLength: nat, n: nat, startFrom: nat)
    requires numBlocks >= 1 && n <= maxLength && startFrom < maxLength
    ensures (forall m: Model<int, int>, contents: Contents<int>, inputs: seq<int>, hidden: seq<int> ::
               && |contents| == numBlocks && (forall i :: 0 <= i < numBlocks ==> |contents[i]| == maxLength)
               && |inputs| == n && Hold(m, 0, contents, inputs) && startFrom + |hidden| <= maxLength
               ==> RightAnswer(m, contents, inputs, startFrom, hidden))
            <==> startFrom <= n
  {
    if startFrom <= n {
      forall m: Model<int, int>, contents: Contents<int>, inputs: seq<int>, hidden: seq<int> |
        && |contents| == numBlocks && (forall i :: 0 <= i < numBlocks ==> |contents[i]| == maxLength)
        && |inputs| == n && Hold(m, 0, contents, inputs) && startFrom + |hidden| <= maxLength
        ensures RightAnswer(m, contents, inputs, startFrom, hidden)
      {
        ServedIsRecomputed(m, 0, contents, inputs, startFrom, hidden);
        assert inputs[..startFrom] <= inputs;
      }
    } else {
      WrongBeyondPrefix(numBlocks, maxLength, n, startFrom);
    }
  }

  // ---- a session

  /** One server's inference session: the caches of its blocks and how many tokens they are taken to hold. */
  class RemoteSession<H(!new), K> {
    const model: Model<H, K>
    const first: nat
    const maxLength: nat
    const caches: seq<array<K>>
    var prefixLength: nat
    ghost var stored: Contents<K>  // what the caches contain

    ghost function Repr(): set<object> { {this} + CacheObjects(caches) }

    ghost predicate Valid() {
      && Distinct(caches)
      && forall i :: 0 <= i < |caches| ==> caches[i].Length == maxLength
    }

    ghost predicate Agrees()
      reads this, caches
    {
      Match(caches, stored)
    }

    /** The caches hold the entries of these inputs. */
    ghost predicate Holds(inputs: seq<H>)
      reads this, caches
    {
      Agrees() && Hold(model, first, stored, inputs)
    }

    constructor (model: Model<H, K>, first: nat, numBlocks: nat, maxLength: nat)
      ensures Valid() && Holds([]) && fresh(Repr())
      ensures this.model == model && this.first == first && |this.caches| == numBlocks && this.maxLength == maxLength
      ensures forall i, j :: 0 <= i < numBlocks && 0 <= j < maxLength ==> stored[i][j] == model.zero
    {
      var all: seq<array<K>> := [];
      ghost var zeros: seq<K> := seq(maxLength, _ => model.zero);
      while |all| < numBlocks
        invariant |all| <= numBlocks && Distinct(all)
        invariant forall i :: 0 <= i < |all| ==> all[i].Length == maxLength && fresh(all[i]) && all[i][..] == zeros
      {
        var cache := new K[maxLength](_ => model.zero);
        assert cache[..] == zeros;
        all := all + [cache];
      }
      this.model, this.first, this.maxLength, this.caches, this.prefixLength := model, first, maxLength, all, 0;
      this.stored := seq(numBlocks, _ => zeros);
    }

    /** One request of iterate_rpc_inference. start_from_position is simply believed: the check meant to
        compare it with the prefix length is an assert of a non-empty tuple, which never fails. The
        request is refused only when it does not fit. The answer is computed from whatever the caches
        contain; for a position they reach up to, it is the recomputed one. batch is the number of sequences
        in the request; `inputs` are any tokens that the caches hold. */
    method Iterate(startFrom: nat, hidden: seq<H>, batch: nat, nf4: bool, chunkLength: nat -> nat, ghost inputs: seq<H>)
      returns (r: Option<seq<H>>)
      requires Valid() && Holds(inputs) && forall i: nat :: chunkLength(i) >= 1
      modifies this, caches
      ensures Agrees()
      ensures r.Some? <==> startFrom + |hidden| <= maxLength
      ensures r.None? ==> stored == old(stored)
      ensures r.Some? ==> prefixLength == startFrom + |hidden| && AllAtLeast(old(stored), startFrom + |hidden|)
      ensures r.Some? ==> r.value == BeforeBlock(model, first, old(stored), startFrom, hidden, |caches|)
      ensures r.Some? ==> stored == ContentsAfter(model, first, old(stored), startFrom, hidden)
      ensures r.Some? && startFrom <= |inputs| ==>
                && r.value == Layers(model, first, first + |caches|, inputs[..startFrom] + hidden)[startFrom..]
                && Holds(inputs[..startFrom] + hidden)
    {
      hide Hold, Layers, BeforeBlock, ContentsAfter;
      ghost var before := stored;
      ghost var tasks;
      r, tasks := Serve(startFrom, hidden, batch, nf4, chunkLength);
      if r.Some? && startFrom <= |inputs| {
        ServedIsRecomputed(model, first, before, inputs, startFrom, hidden);
      }
    }

    /** The answer in terms of whatever the caches contain. */
    method Serve(startFrom: nat, hidden: seq<H>, batch: nat, nf4: bool, chunkLength: nat -> nat)
      returns (r: Option<seq<H>>, ghost tasks: nat)
      requires Valid() && Agrees() && forall i: nat :: chunkLength(i) >= 1
      modifies this, caches
      ensures Agrees()
      ensures r.Some? <==> startFrom + |hidden| <= maxLength
      ensures r.None? ==> stored == old(stored)
      ensures r.Some? ==> prefixLength == startFrom + |hidden| && AllAtLeast(old(stored), startFrom + |hidden|)
      ensures r.Some? ==> r.value == BeforeBlock(model, first, old(stored), startFrom, hidden, |caches|)
      ensures r.Some? ==> stored == ContentsAfter(model, first, old(stored), startFrom, hidden)
      ensures tasks == if r.None? then 0 else PoolTasks(batch, |hidden|, nf4, |caches|)
    {
      hide CanMergePools;
      tasks := 0;
      prefixLength := startFrom;
      if prefixLength + |hidden| > maxLength {
        return None, 0;
      }
      assert AllAtLeast(stored, startFrom + |hidden|);
      var output := hidden;
      if |hidden| > 0 {
        output, tasks := RunPools(hidden, CanMergePools(batch, |hidden|, nf4), chunkLength);
        stored := ContentsAfter(model, first, stored, startFrom, hidden);
      } else {
        NoTokens(model, first, stored, startFrom, hidden);
      }
      prefixLength := prefixLength + |hidden|;
      return Some(output), tasks;
    }

    /** Short requests go through all blocks in one task of the merged pool, longer ones block by block. */
    method RunPools(hidden: seq<H>, merge: bool, chunkLength: nat -> nat) returns (output: seq<H>, ghost tasks: nat)
      requires Valid() && Agrees() && hidden != [] && forall i: nat :: chunkLength(i) >= 1
      requires AllAtLeast(stored, prefixLength + |hidden|)
      modifies caches
      ensures Match(caches, ContentsAfter(model, first, stored, prefixLength, hidden))
      ensures output == BeforeBlock(model, first, stored, prefixLength, hidden, |caches|)
      ensures tasks == if merge then 1 else |caches|
    {
      hide BeforeBlock, CacheAfter;
      FirstInput(model, first, stored, prefixLength, hidden);
      var n := |caches|;
      if merge {
        output := MergedInferenceStep(model, first, caches, 0, n, hidden, prefixLength, chunkLength, stored, hidden);
        tasks := 1;
      } else {
        output, tasks := hidden, 0;
        for k := 0 to n
          invariant PartlyServed(model, first, caches, stored, prefixLength, hidden, k)
          invariant output == BeforeBlock(model, first, stored, prefixLength, hidden, k)
          invariant tasks == k
        {
          output := MergedInferenceStep(model, first, caches, k, k + 1, output, prefixLength, chunkLength,
                                        stored, hidden);
          tasks := tasks + 1;
        }
      }
    }
  }

  lemma FirstInput<H, K>(m: Model<H, K>, first: nat, contents: Contents<K>, startFrom: nat, hidden: seq<H>)
    requires AllAtLeast(contents, startFrom)
    ensures BeforeBlock(m, first, contents, startFrom, hidden, 0) == hidden
  {
  }

  /** A request without tokens changes nothing. */
  lemma NoTokens<H, K>(m: Model<H, K>, first: nat, contents: Contents<K>, startFrom: nat, hidden: seq<H>)
    requires AllAtLeast(contents, startFrom) && hidden == []
    ensures BeforeBlock(m, first, contents, startFrom, hidden, |contents|) == []
    ensures ContentsAfter(m, first, contents, startFrom, hidden) == contents
  {
    forall i | 0 <= i < |contents| ensures CacheAfter(m, first, contents, startFrom, hidden, i) == contents[i] {
      assert contents[i][..startFrom] + contents[i][startFrom..] == contents[i];
    }
  }

  /** A fresh session accepts a request for any position that fits, and answers it wrongly: no tokens in
      front of that position explain the answer. */
  method AskBeyondCache(numBlocks: nat, maxLength: nat, startFrom: nat, hidden: seq<int>, batch: nat, nf4: bool,
                        chunkLength: nat -> nat)
    returns (r: Option<seq<int>>)
    requires numBlocks >= 1 && 1 <= startFrom && hidden != [] && startFrom + |hidden| <= maxLength
    requires forall i: nat :: chunkLength(i) >= 1
    ensures r.Some? && |r.value| == |hidden|
    ensures forall prefix: seq<int> :: |prefix| == startFrom ==>
              r.value != Layers(Watchful(numBlocks), 0, numBlocks, prefix + hidden)[startFrom..]
  {
    var session := new RemoteSession<int, int>(Watchful(numBlocks), 0, numBlocks, maxLength);
    ghost var contents := session.stored;
    assert ZeroAt(contents, 0);
    hide BeforeBlock, CacheAfter, Layers, CacheHolds, ZeroAt;
    r := session.Iterate(startFrom, hidden, batch, nf4, chunkLength, []);
    forall prefix: seq<int> | |prefix| == startFrom
      ensures r.value != Layers(Watchful(numBlocks), 0, numBlocks, prefix + hidden)[startFrom..]
    {
      BeyondIsWrong(contents, 0, startFrom, prefix, hidden);
    }
  }
}

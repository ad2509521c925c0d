/** Causal transformer blocks on token sequences: the simple computation that cached, chunked and
    distributed inference has to reproduce. */
module CausalBlocks {

  /** Blocks as uninterpreted functions. A token's key/value entry depends on its hidden state and its
      position; its output depends on its hidden state and the entries up to and including its own. */
  datatype Model<!H, !K> = Model(
    count: nat,
    kv: (nat, nat, H) -> K,
    attend: (nat, seq<K>, H) -> H,
    zero: K)

  /** One call of a block's forward on a chunk of tokens, after `past` entries. */
  function NewEntries<H, K>(m: Model<H, K>, block: nat, chunk: seq<H>, past: seq<K>): (r: seq<K>)
    ensures |r| == |past| + |chunk|
  {
    past + seq(|chunk|, j requires 0 <= j < |chunk| => m.kv(block, |past| + j, chunk[j]))
  }

  function Outputs<H, K>(m: Model<H, K>, block: nat, chunk: seq<H>, past: seq<K>): (r: seq<H>)
    ensures |r| == |chunk|
  {
    var entries := NewEntries(m, block, chunk, past);
    seq(|chunk|, j requires 0 <= j < |chunk| => m.attend(block, entries[..|past| + j + 1], chunk[j]))
  }

  /** Hidden states after blocks lo .. hi, recomputed for the whole sequence. */
  function Layers<H, K>(m: Model<H, K>, lo: nat, hi: nat, xs: seq<H>): (r: seq<H>)
    ensures |r| == |xs|
    decreases hi - lo
  {
    if lo >= hi then xs else Layers(m, lo + 1, hi, Outputs(m, lo, xs, []))
  }

  /** Key/value entries of a block over a whole input sequence. */
  function Entries<H, K>(m: Model<H, K>, block: nat, xs: seq<H>): (r: seq<K>)
    ensures |r| == |xs|
  {
    NewEntries(m, block, xs, [])
  }

  /** One block on a whole sequence: token j attends to the entries of tokens 0 .. j, itself included, each made
      from that token's state and position. */
  ghost predicate Attends<H, K>(m: Model<H, K>, block: nat, xs: seq<H>, ys: seq<H>) {
    && |ys| == |xs|
    && forall j: nat :: j < |xs| ==>
         ys[j] == m.attend(block, seq(j + 1, i requires 0 <= i <= j => m.kv(block, i, xs[i])), xs[j])
  }

  lemma OutputsAttend<H, K>(m: Model<H, K>, block: nat, xs: seq<H>)
    ensures Attends(m, block, xs, Outputs(m, block, xs, []))
  {
    var ys := Outputs(m, block, xs, []);
    forall j: nat | j < |xs|
      ensures ys[j] == m.attend(block, seq(j + 1, i requires 0 <= i <= j => m.kv(block, i, xs[i])), xs[j])
    {
      assert NewEntries(m, block, xs, [])[..j + 1] == seq(j + 1, i requires 0 <= i <= j => m.kv(block, i, xs[i]));
    }
  }

  /** The states in front of and behind each of the blocks lo .. hi. */
  lemma {:induction false} LayersAttend<H, K>(m: Model<H, K>, lo: nat, hi: nat, xs: seq<H>)
    returns (states: seq<seq<H>>)
    requires lo <= hi
    ensures |states| == hi - lo + 1 && states[0] == xs && states[hi - lo] == Layers(m, lo, hi, xs)
    ensures forall k: nat :: k < hi - lo ==> Attends(m, lo + k, states[k], states[k + 1])
    decreases hi - lo
  {
    states := [xs];
    if lo < hi {
      var ys := Outputs(m, lo, xs, []);
      OutputsAttend(m, lo, xs);
      hide Outputs, Attends;
      var rest := LayersAttend(m, lo + 1, hi, ys);
      states := [xs] + rest;
      forall k: nat | k < hi - lo ensures Attends(m, lo + k, states[k], states[k + 1]) {
        if k > 0 {
          assert Attends(m, lo + 1 + (k - 1), rest[k - 1], rest[k - 1 + 1]) && lo + 1 + (k - 1) == lo + k;
        }
      }
    }
  }

  /** Two chunks in a row are one longer chunk. */
  lemma ChunksCompose<H, K>(m: Model<H, K>, block: nat, a: seq<H>, b: seq<H>, past: seq<K>)
    ensures var mid := NewEntries(m, block, a, past);
            && NewEntries(m, block, a + b, past) == NewEntries(m, block, b, mid)
            && Outputs(m, block, a + b, past) == Outputs(m, block, a, past) + Outputs(m, block, b, mid)
  {
    var mid := NewEntries(m, block, a, past);
    var all := NewEntries(m, block, a + b, past);
    assert all == NewEntries(m, block, b, mid);
    var two := Outputs(m, block, a, past) + Outputs(m, block, b, mid);
    forall j | 0 <= j < |a| + |b| ensures Outputs(m, block, a + b, past)[j] == two[j] {
      if j < |a| {
        assert (a + b)[j] == a[j];
        assert all[..|past| + j + 1] == mid[..|past| + j + 1];
      } else {
        assert (a + b)[j] == b[j - |a|];
        assert |past| + j + 1 == |mid| + (j - |a|) + 1;
      }
    }
  }

  lemma {:induction false} LayersSplit<H, K>(m: Model<H, K>, lo: nat, mid: nat, hi: nat, xs: seq<H>)
    requires lo <= mid <= hi
    ensures Layers(m, lo, hi, xs) == Layers(m, mid, hi, Layers(m, lo, mid, xs))
    decreases mid - lo
  {
    if lo < mid {
      LayersSplit(m, lo + 1, mid, hi, Outputs(m, lo, xs, []));
    }
  }

  /** Causality: later tokens never change the hidden states of earlier ones. */
  lemma {:induction false} LayersCausal<H, K>(m: Model<H, K>, lo: nat, hi: nat, xs: seq<H>, more: seq<H>)
    ensures Layers(m, lo, hi, xs + more)[..|xs|] == Layers(m, lo, hi, xs)
    decreases hi - lo
  {
    if lo < hi {
      ChunksCompose(m, lo, xs, more, []);
      var first := Outputs(m, lo, xs, []);
      LayersCausal(m, lo + 1, hi, first, Outputs(m, lo, more, NewEntries(m, lo, xs, [])));
    }
  }

  lemma LayersPrefix<H, K>(m: Model<H, K>, lo: nat, hi: nat, xs: seq<H>, n: nat)
    requires n <= |xs|
    ensures Layers(m, lo, hi, xs)[..n] == Layers(m, lo, hi, xs[..n])
  {
    LayersCausal(m, lo, hi, xs[..n], xs[n..]);
    assert xs[..n] + xs[n..] == xs;
  }

  lemma EntriesPrefix<H, K>(m: Model<H, K>, block: nat, xs: seq<H>, n: nat)
    requires n <= |xs|
    ensures Entries(m, block, xs)[..n] == Entries(m, block, xs[..n])
  {
  }

  /** A block continuing from the entries of a prefix computes what recomputing the whole gives. */
  lemma ContinueIsRecompute<H, K>(m: Model<H, K>, block: nat, prefix: seq<H>, chunk: seq<H>)
    ensures NewEntries(m, block, chunk, Entries(m, block, prefix)) == Entries(m, block, prefix + chunk)
    ensures Outputs(m, block, chunk, Entries(m, block, prefix)) == Outputs(m, block, prefix + chunk, [])[|prefix|..]
  {
  }
}

/** Fault-tolerant forward and backward passes over remote blocks: petals/client/sequential_autograd.py
    with the server side of petals/server/block_functions.py. */
module Autograd {
  import opened Options
  import opened Routing

  /** Transformer blocks as uninterpreted functions. Block i maps an input to fwd(i, input); bwd(i, input,
      grad) is the gradient at its input. A deep prompt is added to the block's input, and its gradient
      is cut out of the gradient at that input. */
  datatype Blocks<!T, !P> = Blocks(
    count: nat,
    fwd: (nat, T) -> T,
    bwd: (nat, T, T) -> T,
    addPrompt: (T, P) -> T,
    promptGrad: (T, P) -> P)

  /** One prompt per block, or the dummy tensor. */
  type Prompts<P> = Option<seq<P>>

  predicate Fit<T, P>(b: Blocks<T, P>, prompts: Prompts<P>) {
    prompts.Some? ==> |prompts.value| == b.count
  }

  // ---- the simple computation

  /** Block i's input with its prompt added. */
  function Enter<T, P>(b: Blocks<T, P>, prompts: Prompts<P>, i: nat, x: T): T
    requires Fit(b, prompts) && i < b.count
  {
    if prompts.Some? then b.addPrompt(x, prompts.value[i]) else x
  }

  /** Activation in front of block hi, for activation x in front of block lo. */
  function Act<T, P>(b: Blocks<T, P>, prompts: Prompts<P>, lo: nat, hi: nat, x: T): T
    requires Fit(b, prompts) && lo <= hi <= b.count
    decreases hi - lo
  {
    if lo == hi then x else Act(b, prompts, lo + 1, hi, b.fwd(lo, Enter(b, prompts, lo, x)))
  }

  /** Chain rule: gradient in front of block lo, for gradient g in front of block hi. */
  function Grad<T, P>(b: Blocks<T, P>, prompts: Prompts<P>, lo: nat, hi: nat, x: T, g: T): T
    requires Fit(b, prompts) && lo <= hi <= b.count
    decreases hi - lo
  {
    if lo == hi then g
    else
      var inner := Enter(b, prompts, lo, x);
      b.bwd(lo, inner, Grad(b, prompts, lo + 1, hi, b.fwd(lo, inner), g))
  }

  /** Gradients of the prompts of blocks lo .. hi, in layer order; none for dummy prompts. */
  function PromptGrads<T, P>(b: Blocks<T, P>, prompts: Prompts<P>, lo: nat, hi: nat, x: T, g: T): seq<P>
    requires Fit(b, prompts) && lo <= hi <= b.count
    decreases hi - lo
  {
    if lo == hi || prompts.None? then []
    else
      [b.promptGrad(Grad(b, prompts, lo, hi, x, g), prompts.value[lo])]
      + PromptGrads(b, prompts, lo + 1, hi, b.fwd(lo, Enter(b, prompts, lo, x)), g)
  }

  /** Cutting the blocks in two at mid composes activations, gradients and prompt gradients. */
  lemma {:induction false} Split<T, P>(b: Blocks<T, P>, prompts: Prompts<P>, lo: nat, mid: nat, hi: nat, x: T, g: T)
    requires Fit(b, prompts) && lo <= mid <= hi <= b.count
    ensures var y := Act(b, prompts, lo, mid, x);
            var h := Grad(b, prompts, mid, hi, y, g);
            && Act(b, prompts, lo, hi, x) == Act(b, prompts, mid, hi, y)
            && Grad(b, prompts, lo, hi, x, g) == Grad(b, prompts, lo, mid, x, h)
            && PromptGrads(b, prompts, lo, hi, x, g)
               == PromptGrads(b, prompts, lo, mid, x, h) + PromptGrads(b, prompts, mid, hi, y, g)
    decreases mid - lo
  {
    if lo == mid {
      var y := Act(b, prompts, lo, mid, x);
      assert PromptGrads(b, prompts, lo, mid, x, Grad(b, prompts, mid, hi, y, g)) == [];
    } else {
      Split(b, prompts, lo + 1, mid, hi, b.fwd(lo, Enter(b, prompts, lo, x)), g);
    }
  }

  // ---- the same computation, state by state

  /** Block i takes x to y: its prompt, if any, is added to x, then the block runs. */
  ghost predicate Forward<T, P>(b: Blocks<T, P>, prompts: Prompts<P>, i: nat, x: T, y: T)
    requires Fit(b, prompts) && i < b.count
  {
    y == b.fwd(i, if prompts.Some? then b.addPrompt(x, prompts.value[i]) else x)
  }

  /** Block i takes the gradient g behind it to the gradient h in front of it, at input x with its prompt added. */
  ghost predicate Backward<T, P>(b: Blocks<T, P>, prompts: Prompts<P>, i: nat, x: T, g: T, h: T)
    requires Fit(b, prompts) && i < b.count
  {
    h == b.bwd(i, if prompts.Some? then b.addPrompt(x, prompts.value[i]) else x, g)
  }

  /** xs[k] is the activation in front of block lo + k. */
  ghost predicate ForwardTrace<T, P>(b: Blocks<T, P>, prompts: Prompts<P>, lo: nat, xs: seq<T>)
    requires Fit(b, prompts) && 1 <= |xs| && lo + |xs| - 1 <= b.count
  {
    forall k :: 0 <= k < |xs| - 1 ==> Forward(b, prompts, lo + k, xs[k], xs[k + 1])
  }

  /** gs[k] is the gradient in front of block lo + k, and the gradient of the block's prompt is cut out of it. */
  ghost predicate BackwardTrace<T, P>(b: Blocks<T, P>, prompts: Prompts<P>, lo: nat, xs: seq<T>, gs: seq<T>,
                                      promptGrads: seq<P>)
    requires Fit(b, prompts) && 1 <= |xs| && lo + |xs| - 1 <= b.count
  {
    && |gs| == |xs| && |promptGrads| == (if prompts.Some? then |xs| - 1 else 0)
    && (forall k :: 0 <= k < |xs| - 1 ==> Backward(b, prompts, lo + k, xs[k], gs[k + 1], gs[k]))
    && (forall k :: 0 <= k < |promptGrads| ==> promptGrads[k] == b.promptGrad(gs[k], prompts.value[lo + k]))
  }

  /** Running blocks lo .. hi takes x to y. */
  ghost predicate RunsForward<T(!new), P(!new)>(b: Blocks<T, P>, prompts: Prompts<P>, lo: nat, hi: nat, x: T, y: T)
    requires Fit(b, prompts) && lo <= hi <= b.count
  {
    exists xs: seq<T> ::
      |xs| == hi - lo + 1 && ForwardTrace(b, prompts, lo, xs) && xs[0] == x && xs[hi - lo] == y
  }

  /** Running blocks lo .. hi forward from x and then backward takes the gradient g to grad. */
  ghost predicate RunsBackward<T(!new), P(!new)>(b: Blocks<T, P>, prompts: Prompts<P>, lo: nat, hi: nat, x: T, g: T,
                                                 grad: T, promptGrads: seq<P>)
    requires Fit(b, prompts) && lo <= hi <= b.count
  {
    exists xs: seq<T>, gs: seq<T> ::
      && |xs| == hi - lo + 1 && ForwardTrace(b, prompts, lo, xs) && xs[0] == x
      && BackwardTrace(b, prompts, lo, xs, gs, promptGrads) && gs[hi - lo] == g && gs[0] == grad
  }

  lemma ForwardOneMore<T, P>(b: Blocks<T, P>, prompts: Prompts<P>, lo: nat, x: T, xs: seq<T>)
    requires Fit(b, prompts) && 1 <= |xs| && lo + |xs| <= b.count
    requires ForwardTrace(b, prompts, lo + 1, xs) && Forward(b, prompts, lo, x, xs[0])
    ensures ForwardTrace(b, prompts, lo, [x] + xs)
  {
    hide Forward;
    var all := [x] + xs;
    forall k | 0 <= k < |xs| ensures Forward(b, prompts, lo + k, all[k], all[k + 1]) {
      if k > 0 {
        assert Forward(b, prompts, lo + 1 + (k - 1), xs[k - 1], xs[k - 1 + 1]) && lo + 1 + (k - 1) == lo + k;
      }
    }
  }

  lemma BackwardOneMore<T, P>(b: Blocks<T, P>, prompts: Prompts<P>, lo: nat, x: T, xs: seq<T>, g: T, gs: seq<T>,
                              promptGrads: seq<P>)
    requires Fit(b, prompts) && 1 <= |xs| && lo + |xs| <= b.count
    requires BackwardTrace(b, prompts, lo + 1, xs, gs, promptGrads) && Backward(b, prompts, lo, x, gs[0], g)
    ensures BackwardTrace(b, prompts, lo, [x] + xs, [g] + gs,
                          if prompts.Some? then [b.promptGrad(g, prompts.value[lo])] + promptGrads else [])
  {
    hide Backward;
    var all, allGs := [x] + xs, [g] + gs;
    forall k | 0 <= k < |xs| ensures Backward(b, prompts, lo + k, all[k], allGs[k + 1], allGs[k]) {
      if k > 0 {
        assert Backward(b, prompts, lo + 1 + (k - 1), xs[k - 1], gs[k - 1 + 1], gs[k - 1]);
        assert lo + 1 + (k - 1) == lo + k && allGs[k + 1] == gs[k];
      }
    }
    var cut := if prompts.Some? then [b.promptGrad(g, prompts.value[lo])] + promptGrads else [];
    forall k | 0 <= k < |cut| ensures cut[k] == b.promptGrad(allGs[k], prompts.value[lo + k]) {
      if k > 0 {
        assert promptGrads[k - 1] == b.promptGrad(gs[k - 1], prompts.value[lo + 1 + (k - 1)]);
        assert lo + 1 + (k - 1) == lo + k;
      }
    }
  }

  lemma {:induction false} Traces<T(!new), P(!new)>(b: Blocks<T, P>, prompts: Prompts<P>, lo: nat, hi: nat, x: T, g: T)
    returns (xs: seq<T>, gs: seq<T>)
    requires Fit(b, prompts) && lo <= hi <= b.count
    ensures |xs| == hi - lo + 1 && ForwardTrace(b, prompts, lo, xs)
    ensures xs[0] == x && xs[hi - lo] == Act(b, prompts, lo, hi, x)
    ensures BackwardTrace(b, prompts, lo, xs, gs, PromptGrads(b, prompts, lo, hi, x, g))
    ensures gs[hi - lo] == g && gs[0] == Grad(b, prompts, lo, hi, x, g)
    decreases hi - lo
  {
    hide Act, Grad, PromptGrads, Enter, ForwardTrace, BackwardTrace, Forward, Backward;
    if lo == hi {
      xs, gs := [x], [g];
      NoBlocks(b, prompts, lo, x, g);
    } else {
      var next := b.fwd(lo, Enter(b, prompts, lo, x));
      var xs', gs' := Traces(b, prompts, lo + 1, hi, next, g);
      var grad, promptGrads := Grad(b, prompts, lo, hi, x, g), PromptGrads(b, prompts, lo + 1, hi, next, g);
      FirstOfBlocks(b, prompts, lo, hi, x, g);
      TraceLengths(b, prompts, lo + 1, xs', gs', promptGrads);
      ForwardOneMore(b, prompts, lo, x, xs');
      BackwardOneMore(b, prompts, lo, x, xs', grad, gs', promptGrads);
      xs, gs := [x] + xs', [grad] + gs';
    }
  }

  lemma NoBlocks<T, P>(b: Blocks<T, P>, prompts: Prompts<P>, lo: nat, x: T, g: T)
    requires Fit(b, prompts) && lo <= b.count
    ensures Act(b, prompts, lo, lo, x) == x && Grad(b, prompts, lo, lo, x, g) == g
    ensures PromptGrads(b, prompts, lo, lo, x, g) == []
    ensures ForwardTrace(b, prompts, lo, [x]) && BackwardTrace(b, prompts, lo, [x], [g], [])
  {
  }

  lemma FirstOfBlocks<T, P>(b: Blocks<T, P>, prompts: Prompts<P>, lo: nat, hi: nat, x: T, g: T)
    requires Fit(b, prompts) && lo < hi <= b.count
    ensures var next := b.fwd(lo, Enter(b, prompts, lo, x));
            var grad := Grad(b, prompts, lo, hi, x, g);
            && Act(b, prompts, lo, hi, x) == Act(b, prompts, lo + 1, hi, next)
            && Forward(b, prompts, lo, x, next)
            && Backward(b, prompts, lo, x, Grad(b, prompts, lo + 1, hi, next, g), grad)
            && PromptGrads(b, prompts, lo, hi, x, g)
               == if prompts.Some?
                  then [b.promptGrad(grad, prompts.value[lo])] + PromptGrads(b, prompts, lo + 1, hi, next, g) else []
  {
  }

  lemma TraceLengths<T, P>(b: Blocks<T, P>, prompts: Prompts<P>, lo: nat, xs: seq<T>, gs: seq<T>, promptGrads: seq<P>)
    requires Fit(b, prompts) && 1 <= |xs| && lo + |xs| - 1 <= b.count
    requires BackwardTrace(b, prompts, lo, xs, gs, promptGrads)
    ensures |gs| == |xs|
  {
  }

  /** The recursive functions say the same as the traces. */
  lemma ChainRuleIsTraced<T(!new), P(!new)>(b: Blocks<T, P>, prompts: Prompts<P>, lo: nat, hi: nat, x: T, g: T)
    requires Fit(b, prompts) && lo <= hi <= b.count
    ensures RunsForward(b, prompts, lo, hi, x, Act(b, prompts, lo, hi, x))
    ensures RunsBackward(b, prompts, lo, hi, x, g,
                         Grad(b, prompts, lo, hi, x, g), PromptGrads(b, prompts, lo, hi, x, g))
  {
    var xs, gs := Traces(b, prompts, lo, hi, x, g);
  }

  // ---- saved activations

  /** inputs[i] is the exact activation in front of spans[i]. */
  ghost predicate Saved<T(!new), P(!new)>(b: Blocks<T, P>, prompts: Prompts<P>, lo: nat, x: T, inputs: seq<T>,
                                          spans: seq<Span>)
    requires Fit(b, prompts)
  {
    && |inputs| == |spans|
    && forall i :: 0 <= i < |spans| ==>
         lo <= spans[i].start <= b.count && inputs[i] == Act(b, prompts, lo, spans[i].start, x)
  }

  // ---- the servers

  function Slice<P>(prompts: Prompts<P>, lo: nat, hi: nat): Prompts<P>
    requires prompts.Some? ==> lo <= hi <= |prompts.value|
  {
    if prompts.None? then None else Some(prompts.value[lo..hi])
  }

  /** run_rpc_forward on the requested blocks, with the slice of prompts that was sent along. */
  method RunRpcForward<T(!new), P(!new)>(b: Blocks<T, P>, span: Span, slice: Prompts<P>, inputs: T,
                                         ghost prompts: Prompts<P>)
    returns (hidden: T)
    requires Fit(b, prompts) && span.start <= span.end <= b.count
    requires slice == Slice(prompts, span.start, span.end)
    ensures hidden == Act(b, prompts, span.start, span.end, inputs)
    ensures RunsForward(b, prompts, span.start, span.end, inputs, hidden)
    ensures span.end == span.start + 1 ==>
              hidden == b.fwd(span.start, if slice.Some? then b.addPrompt(inputs, slice.value[0]) else inputs)
  {
    ChainRuleIsTraced(b, prompts, span.start, span.end, inputs, inputs);
    hide RunsForward, RunsBackward;
    hidden := inputs;
    for k := 0 to span.end - span.start
      invariant Act(b, prompts, span.start, span.end, inputs) == Act(b, prompts, span.start + k, span.end, hidden)
    {
      if slice.Some? {
        hidden := b.addPrompt(hidden, slice.value[k]);
      }
      hidden := b.fwd(span.start + k, hidden);
    }
  }

  lemma OneBlock<T(!new), P(!new)>(b: Blocks<T, P>, prompts: Prompts<P>, lo: nat, hi: nat, x: T, g: T)
    requires Fit(b, prompts) && lo < hi <= b.count
    ensures var grad, promptGrads := Grad(b, prompts, lo, hi, x, g), PromptGrads(b, prompts, lo, hi, x, g);
            && RunsBackward(b, prompts, lo, hi, x, g, grad, promptGrads)
            && (prompts.Some? ==> |promptGrads| == hi - lo && promptGrads[0] == b.promptGrad(grad, prompts.value[lo]))
            && (hi == lo + 1 ==>
                  grad == b.bwd(lo, if prompts.Some? then b.addPrompt(x, prompts.value[lo]) else x, g))
  {
    ChainRuleIsTraced(b, prompts, lo, hi, x, g);
    var xs: seq<T>, gs: seq<T> :|
      && |xs| == hi - lo + 1 && ForwardTrace(b, prompts, lo, xs) && xs[0] == x
      && BackwardTrace(b, prompts, lo, xs, gs, PromptGrads(b, prompts, lo, hi, x, g))
      && gs[hi - lo] == g && gs[0] == Grad(b, prompts, lo, hi, x, g);
    assert Backward(b, prompts, lo + 0, xs[0], gs[0 + 1], gs[0]);
  }

  /** Forward again through all but the last block to collect the blocks' inputs, then
      backward through all of them; the prompt gradients are collected in reverse and turned around. */
  method CollectGradients<T(!new), P(!new)>(b: Blocks<T, P>, span: Span, slice: Prompts<P>, inputs: T, gradOutputs: T,
                                            ghost prompts: Prompts<P>)
    returns (grad: T, gradPrompts: seq<P>)
    requires Fit(b, prompts) && span.start < span.end <= b.count
    requires slice == Slice(prompts, span.start, span.end)
    ensures grad == Grad(b, prompts, span.start, span.end, inputs, gradOutputs)
    ensures gradPrompts == PromptGrads(b, prompts, span.start, span.end, inputs, gradOutputs)
  {
    var n := span.end - span.start;
    var x := inputs;
    var interInputs: seq<T> := [];
    for k := 0 to n - 1
      invariant |interInputs| == k
      invariant x == Act(b, prompts, span.start, span.start + k, inputs)
      invariant forall j :: 0 <= j < k ==>
                  interInputs[j]
                  == Enter(b, prompts, span.start + j, Act(b, prompts, span.start, span.start + j, inputs))
    {
      Split(b, prompts, span.start, span.start + k, span.start + k + 1, inputs, gradOutputs);
      if slice.Some? {
        x := b.addPrompt(x, slice.value[k]);
      }
      interInputs := interInputs + [x];
      x := b.fwd(span.start + k, x);
    }
    if slice.Some? {
      x := b.addPrompt(x, slice.value[n - 1]);
    }
    interInputs := interInputs + [x];

    grad := gradOutputs;
    gradPrompts := [];
    var k := n;
    while k > 0
      invariant 0 <= k <= n
      invariant var y := Act(b, prompts, span.start, span.start + k, inputs);
                && grad == Grad(b, prompts, span.start + k, span.end, y, gradOutputs)
                && gradPrompts == PromptGrads(b, prompts, span.start + k, span.end, y, gradOutputs)
    {
      k := k - 1;
      Split(b, prompts, span.start, span.start + k, span.start + k + 1, inputs, gradOutputs);
      grad := b.bwd(span.start + k, interInputs[k], grad);
      if slice.Some? {
        gradPrompts := [b.promptGrad(grad, slice.value[k])] + gradPrompts;
      }
    }
  }

  /** run_rpc_backward on the requested blocks: the gradient in front of them, and the gradient of each prompt, cut
      out of the gradient in front of its block. */
  method RunRpcBackward<T(!new), P(!new)>(b: Blocks<T, P>, span: Span, slice: Prompts<P>, inputs: T, gradOutputs: T,
                                          ghost prompts: Prompts<P>)
    returns (grad: T, gradPrompts: seq<P>)
    requires Fit(b, prompts) && span.start < span.end <= b.count
    requires slice == Slice(prompts, span.start, span.end)
    ensures grad == Grad(b, prompts, span.start, span.end, inputs, gradOutputs)
    ensures gradPrompts == PromptGrads(b, prompts, span.start, span.end, inputs, gradOutputs)
    ensures RunsBackward(b, prompts, span.start, span.end, inputs, gradOutputs, grad, gradPrompts)
    ensures slice.Some? ==>
              |gradPrompts| == span.end - span.start && gradPrompts[0] == b.promptGrad(grad, slice.value[0])
    ensures span.end == span.start + 1 ==>
              var x := if slice.Some? then b.addPrompt(inputs, slice.value[0]) else inputs;
              grad == b.bwd(span.start, x, gradOutputs)
  {
    OneBlock(b, prompts, span.start, span.end, inputs, gradOutputs);
    grad, gradPrompts := CollectGradients(b, span, slice, inputs, gradOutputs, prompts);
  }

  // ---- the network

  /** The outside world. Each call happens at its own point in time; whether a route is found, which one,
      and whether a server answers is decided by oracles. A server that answers computes correctly. */
  class Network<T(!new), P(!new)> {
    const blocks: Blocks<T, P>
    const routes: (nat, nat, nat) -> Option<seq<Span>>
    const answers: nat -> bool
    var time: nat
    var failures: nat  // how many of the calls made so far failed

    ghost predicate Valid() {
      forall t, lo, hi :: routes(t, lo, hi).Some? ==> RouteOk(routes(t, lo, hi).value, lo, hi)
    }

    constructor (blocks: Blocks<T, P>, routes: (nat, nat, nat) -> Option<seq<Span>>, answers: nat -> bool)
      requires forall t, lo, hi :: routes(t, lo, hi).Some? ==> RouteOk(routes(t, lo, hi).value, lo, hi)
      ensures Valid() && time == 0 && failures == 0
      ensures this.blocks == blocks && this.routes == routes && this.answers == answers
    {
      this.blocks, this.routes, this.answers, this.time, this.failures := blocks, routes, answers, 0, 0;
    }

    // ---- the calls

    method MakeSequence(lo: nat, hi: nat) returns (r: Option<seq<Span>>)
      modifies this
      ensures r == routes(old(time), lo, hi) && time == old(time) + 1
      ensures failures == old(failures) + if r.None? then 1 else 0
    {
      r := routes(time, lo, hi);
      time := time + 1;
      failures := failures + if r.None? then 1 else 0;
    }

    method RemoteForward(span: Span, inputs: T, slice: Prompts<P>, ghost prompts: Prompts<P>) returns (r: Option<T>)
      requires Fit(blocks, prompts) && span.start <= span.end <= blocks.count
      requires slice == Slice(prompts, span.start, span.end)
      modifies this
      ensures r.Some? <==> answers(old(time))
      ensures time == old(time) + 1 && failures == old(failures) + if r.None? then 1 else 0
      ensures r.Some? ==> r.value == Act(blocks, prompts, span.start, span.end, inputs)
    {
      var answered := answers(time);
      time := time + 1;
      if !answered {
        failures := failures + 1;
        return None;
      }
      var hidden := RunRpcForward(blocks, span, slice, inputs, prompts);
      return Some(hidden);
    }

    method RemoteBackward(span: Span, inputs: T, grad: T, slice: Prompts<P>, ghost prompts: Prompts<P>)
      returns (r: Option<(T, seq<P>)>)
      requires Fit(blocks, prompts) && span.start < span.end <= blocks.count
      requires slice == Slice(prompts, span.start, span.end)
      modifies this
      ensures r.Some? <==> answers(old(time))
      ensures time == old(time) + 1 && failures == old(failures) + if r.None? then 1 else 0
      ensures r.Some? ==>
                && r.value.0 == Grad(blocks, prompts, span.start, span.end, inputs, grad)
                && r.value.1 == PromptGrads(blocks, prompts, span.start, span.end, inputs, grad)
    {
      var answered := answers(time);
      time := time + 1;
      if !answered {
        failures := failures + 1;
        return None;
      }
      var g, gp := RunRpcBackward(blocks, span, slice, inputs, grad, prompts);
      return Some((g, gp));
    }

    // ---- passes without a failing call

    ghost predicate AllAnswer(lo: nat, hi: nat) {
      forall t: nat :: lo <= t < hi ==> answers(t)
    }

    /** The spans of a forward pass that begins at time t and in which nothing fails. */
    function RouteOf(t: nat, lo: nat, hi: nat): seq<Span> {
      if lo < hi && routes(t, lo, hi).Some? && routes(t, lo, hi).value != []
      then Clip(routes(t, lo, hi).value, hi) else []
    }

    /** A forward pass over lo .. hi that begins at time t finds a route, and all its servers answer. */
    ghost predicate ForwardClean(t: nat, lo: nat, hi: nat) {
      lo < hi ==> routes(t, lo, hi).Some? && AllAnswer(t + 1, t + 1 + |RouteOf(t, lo, hi)|)
    }

    /** When it is over. */
    function AfterForward(t: nat, lo: nat, hi: nat): nat {
      if lo < hi then t + 1 + |RouteOf(t, lo, hi)| else t
    }

    /** The servers of that pass also answer the backward calls that follow it. */
    ghost predicate BackwardClean(t: nat, lo: nat, hi: nat) {
      AllAnswer(AfterForward(t, lo, hi), AfterForward(t, lo, hi) + |RouteOf(t, lo, hi)|)
    }

    /** The server of the next span answers at once; a route is looked up first if there is none yet. */
    ghost predicate NextAnswers(route: seq<Span>, t: nat, lo: nat, hi: nat) {
      if route != [] then answers(t) else routes(t, lo, hi).Some? && answers(t + 1)
    }

    /** The backward call on span at time t fails; its blocks are run forward again without a failure, and the
        backward call on the last of the new spans comes through. */
    ghost predicate FailsOnce(span: Span, t: nat) {
      && !answers(t) && ForwardClean(t + 1, span.start, span.end)
      && answers(AfterForward(t + 1, span.start, span.end))
    }

    /** The same, but the backward call on the last of the new spans fails, too. */
    ghost predicate FailsTwice(span: Span, t: nat) {
      && !answers(t) && ForwardClean(t + 1, span.start, span.end)
      && !answers(AfterForward(t + 1, span.start, span.end))
    }
  }

  // ---- the client

  lemma SavedAppend<T(!new), P(!new)>(b: Blocks<T, P>, prompts: Prompts<P>, lo: nat, mid: nat, x: T,
                                      inputs: seq<T>, spans: seq<Span>, inputs': seq<T>, spans': seq<Span>, hi: nat)
    requires Fit(b, prompts) && lo <= mid <= hi <= b.count
    requires Saved(b, prompts, lo, x, inputs, spans) && Tiles(spans, lo, mid)
    requires Saved(b, prompts, mid, Act(b, prompts, lo, mid, x), inputs', spans') && Tiles(spans', mid, hi)
    ensures Saved(b, prompts, lo, x, inputs + inputs', spans + spans') && Tiles(spans + spans', lo, hi)
  {
    hide Act;
    forall i | 0 <= i < |spans'|
      ensures lo <= spans'[i].start <= b.count
      ensures inputs'[i] == Act(b, prompts, lo, spans'[i].start, x)
    {
      Split(b, prompts, lo, mid, spans'[i].start, x, x);
    }
  }

  lemma TakeFirst(route: seq<Span>, lo: nat, hi: nat)
    requires Tiles(route, lo, hi) && lo < hi
    ensures route != [] && route == [route[0]] + route[1..]
    ensures lo == route[0].start < route[0].end <= hi
    ensures route[1..] != [] ==> Tiles(route[1..], route[0].end, hi)
  {
    TileBounds(route, lo, hi, 0);
  }

  /** The next span was taken off the known route, or, if none was known, off the one found at time t. */
  ghost predicate TookNext<T(!new), P(!new)>(net: Network<T, P>, known: seq<Span>, blockIdx: nat, hi: nat, t: nat,
                                             span: Span, rest: seq<Span>, t': nat) {
    && [span] + rest == (if known != [] then known else net.RouteOf(t, blockIdx, hi))
    && t' == t + if known != [] then 1 else 2
  }

  /** One attempt of the forward loop: re-route on the first block and on every retry, then ask the next
      server of the route. A span that was taken from the route is used up even if its server fails. */
  method ForwardAttempt<T(!new), P(!new)>(net: Network<T, P>, hidden: T, prompts: Prompts<P>, route: seq<Span>,
                                          blockIdx: nat, hi: nat, attemptNo: nat)
    returns (r: Option<(T, Span)>, rest: seq<Span>)
    requires net.Valid() && Fit(net.blocks, prompts) && blockIdx < hi <= net.blocks.count
    requires attemptNo == 0 && route != [] ==> Tiles(route, blockIdx, hi)
    modifies net
    ensures net.failures == old(net.failures) + (if r.None? then 1 else 0) && net.time >= old(net.time)
    ensures var known := if attemptNo == 0 then route else [];
            && (r.Some? <==> net.NextAnswers(known, old(net.time), blockIdx, hi))
            && (r.Some? ==> TookNext(net, known, blockIdx, hi, old(net.time), r.value.1, rest, net.time))
    ensures r.Some? ==>
              var span := r.value.1;
              && blockIdx == span.start < span.end <= hi
              && r.value.0 == Act(net.blocks, prompts, blockIdx, span.end, hidden)
              && (rest != [] ==> Tiles(rest, span.end, hi))
  {
    hide Tiles, RouteOk, Act, Clip;
    rest := route;
    if route == [] || attemptNo >= 1 {
      var found := net.MakeSequence(blockIdx, hi);
      if found.None? {
        return None, rest;
      }
      ClippedRouteTiles(found.value, blockIdx, hi);
      rest := Clip(found.value, hi);
    }
    TakeFirst(rest, blockIdx, hi);
    var span := rest[0];
    rest := rest[1..];
    var outputs := net.RemoteForward(span, hidden, Slice(prompts, span.start, span.end), prompts);
    r := if outputs.Some? then Some((outputs.value, span)) else None;
  }

  /** All attempts at the next span. None stands for the exception after max_retries attempts. */
  method ForwardSpan<T(!new), P(!new)>(net: Network<T, P>, hidden: T, prompts: Prompts<P>, route: seq<Span>,
                                       blockIdx: nat, hi: nat, maxRetries: nat)
    returns (r: Option<(T, Span)>, rest: seq<Span>)
    requires net.Valid() && Fit(net.blocks, prompts) && blockIdx < hi <= net.blocks.count && maxRetries >= 1
    requires route != [] ==> Tiles(route, blockIdx, hi)
    modifies net
    ensures net.failures >= old(net.failures)
    ensures r.None? ==> net.failures == old(net.failures) + maxRetries
    ensures r.Some? && net.failures == old(net.failures) <==> net.NextAnswers(route, old(net.time), blockIdx, hi)
    ensures r.Some? && net.failures == old(net.failures) ==>
              TookNext(net, route, blockIdx, hi, old(net.time), r.value.1, rest, net.time)
    ensures r.Some? && net.failures > old(net.failures) ==>
              && net.time >= old(net.time) + 2 && net.NextAnswers([], net.time - 2, blockIdx, hi)
              && TookNext(net, [], blockIdx, hi, net.time - 2, r.value.1, rest, net.time)
    ensures r.Some? ==>
              var span := r.value.1;
              && blockIdx == span.start < span.end <= hi
              && r.value.0 == Act(net.blocks, prompts, blockIdx, span.end, hidden)
              && (rest != [] ==> Tiles(rest, span.end, hi))
  {
    var attemptNo := 0;
    rest := route;
    while true
      invariant attemptNo < maxRetries && net.failures == old(net.failures) + attemptNo
      invariant net.time >= old(net.time) && (attemptNo == 0 ==> rest == route && net.time == old(net.time))
      invariant attemptNo > 0 ==> !net.NextAnswers(route, old(net.time), blockIdx, hi)
      decreases maxRetries - attemptNo
    {
      r, rest := ForwardAttempt(net, hidden, prompts, rest, blockIdx, hi, attemptNo);
      if r.Some? || attemptNo + 1 == maxRetries {
        return;
      }
      attemptNo := attemptNo + 1;
    }
  }

  /** A finished span is recorded with its input. */
  lemma RecordSpan<T(!new), P(!new)>(b: Blocks<T, P>, prompts: Prompts<P>, lo: nat, mid: nat, x: T,
                                     inputs: seq<T>, spans: seq<Span>, hidden: T, span: Span)
    requires Fit(b, prompts) && lo <= mid == span.start < span.end <= b.count
    requires Saved(b, prompts, lo, x, inputs, spans) && Tiles(spans, lo, mid)
    requires hidden == Act(b, prompts, lo, mid, x)
    ensures Saved(b, prompts, lo, x, inputs + [hidden], spans + [span]) && Tiles(spans + [span], lo, span.end)
    ensures Act(b, prompts, mid, span.end, hidden) == Act(b, prompts, lo, span.end, x)
  {
    assert Saved(b, prompts, mid, hidden, [hidden], [span]) && Tiles([span], mid, span.end);
    SavedAppend(b, prompts, lo, mid, x, inputs, spans, [hidden], [span], span.end);
    Split(b, prompts, lo, mid, span.end, x, x);
  }

  /** Where a forward pass that began at time t0 stands at time t, as long as no call has failed. */
  ghost predicate OnRoute<T(!new), P(!new)>(net: Network<T, P>, t0: nat, lo: nat, hi: nat, done: seq<Span>,
                                            ahead: seq<Span>, t: nat) {
    && lo < hi && net.routes(t0, lo, hi).Some? && net.RouteOf(t0, lo, hi) == done + ahead
    && t == t0 + 1 + |done| && net.AllAnswer(t0 + 1, t)
  }

  /** Either no call has failed so far, or the pass is not a clean one. */
  ghost predicate ForwardSteady<T(!new), P(!new)>(net: Network<T, P>, t0: nat, lo: nat, hi: nat, blockIdx: nat,
                                                  done: seq<Span>, ahead: seq<Span>, t: nat, failed: bool) {
    if blockIdx == lo then done == [] && ahead == [] && t == t0 && !failed
    else if failed then !net.ForwardClean(t0, lo, hi) else OnRoute(net, t0, lo, hi, done, ahead, t)
  }

  /** A pass in the middle of its blocks has a span ahead of it. */
  lemma SomethingAhead<T(!new), P(!new)>(net: Network<T, P>, t0: nat, lo: nat, hi: nat, blockIdx: nat,
                                         done: seq<Span>, ahead: seq<Span>, t: nat)
    requires net.Valid() && OnRoute(net, t0, lo, hi, done, ahead, t) && Tiles(done, lo, blockIdx) && lo < blockIdx
    ensures ahead == [] <==> blockIdx == hi
  {
    ClippedRouteTiles(net.routes(t0, lo, hi).value, lo, hi);
    if ahead == [] {
      assert done + ahead == done;
    } else {
      var all := done + ahead;
      assert all[|all| - 1] == ahead[|ahead| - 1];
      TileBounds(all, lo, hi, |all| - 1);
      TileBounds(all, lo, hi, |done|);
      assert all[|done| - 1 + 1] == ahead[0] && all[|done| - 1] == done[|done| - 1];
    }
  }

  /** What the next span does to a pass that is steady. */
  lemma StaySteady<T(!new), P(!new)>(net: Network<T, P>, t0: nat, lo: nat, hi: nat, blockIdx: nat, done: seq<Span>,
                                     ahead: seq<Span>, t: nat, failed: bool, span: Span, rest: seq<Span>,
                                     t': nat, failed': bool)
    requires net.Valid() && Tiles(done, lo, blockIdx)
    requires ForwardSteady(net, t0, lo, hi, blockIdx, done, ahead, t, failed)
    requires lo <= blockIdx < hi && blockIdx < span.end
    requires !failed' <==> !failed && net.NextAnswers(ahead, t, blockIdx, hi)
    requires !failed' ==>
               var used := if ahead != [] then ahead else net.RouteOf(t, blockIdx, hi);
               used == [span] + rest && t' == t + if ahead != [] then 1 else 2
    ensures ForwardSteady(net, t0, lo, hi, span.end, done + [span], rest, t', failed')
    ensures failed' ==> !net.ForwardClean(t0, lo, hi)
  {
    hide Clip, Tiles, RouteOk;
    if !failed && blockIdx == lo {
      FirstSpanSteady(net, t0, lo, hi, span, rest, t', failed');
    } else if !failed {
      NextSpanSteady(net, t0, lo, hi, blockIdx, done, ahead, t, span, rest, t', failed');
    }
  }

  lemma FirstSpanSteady<T(!new), P(!new)>(net: Network<T, P>, t0: nat, lo: nat, hi: nat, span: Span, rest: seq<Span>,
                                          t': nat, failed': bool)
    requires net.Valid() && lo < hi
    requires !failed' <==> net.NextAnswers([], t0, lo, hi)
    requires !failed' ==> net.RouteOf(t0, lo, hi) == [span] + rest && t' == t0 + 2
    ensures if failed' then !net.ForwardClean(t0, lo, hi) else OnRoute(net, t0, lo, hi, [span], rest, t')
  {
    hide Clip, Tiles;
    if net.routes(t0, lo, hi).Some? {
      ClippedRouteTiles(net.routes(t0, lo, hi).value, lo, hi);
      assert net.RouteOf(t0, lo, hi) != [];
    }
  }

  lemma NextSpanSteady<T(!new), P(!new)>(net: Network<T, P>, t0: nat, lo: nat, hi: nat, blockIdx: nat, done: seq<Span>,
                                         ahead: seq<Span>, t: nat, span: Span, rest: seq<Span>, t': nat, failed': bool)
    requires net.Valid() && OnRoute(net, t0, lo, hi, done, ahead, t) && Tiles(done, lo, blockIdx)
    requires lo < blockIdx < hi
    requires !failed' <==> net.NextAnswers(ahead, t, blockIdx, hi)
    requires !failed' && ahead != [] ==> ahead == [span] + rest && t' == t + 1
    ensures if failed' then !net.ForwardClean(t0, lo, hi) else OnRoute(net, t0, lo, hi, done + [span], rest, t')
  {
    hide Clip, Tiles, RouteOk;
    SomethingAhead(net, t0, lo, hi, blockIdx, done, ahead, t);
    hide Network.RouteOf;
    assert |net.RouteOf(t0, lo, hi)| == |done| + |ahead|;
    assert done + ([span] + rest) == done + [span] + rest;
  }

  /** sequential_forward. Whatever fails and however the path is re-routed, what is returned is the
      composition of blocks lo .. hi; the recorded spans tile them in order, and each saved input is the
      exact activation at its span's start. None stands for the exception after max_retries attempts. If
      the first route is found and its servers answer, the pass returns with that route; it takes
      max_retries failing calls to make it raise. */
  method SequentialForward<T(!new), P(!new)>(net: Network<T, P>, inputs: T, prompts: Prompts<P>, lo: nat, hi: nat,
                                             maxRetries: nat)
    returns (r: Option<(T, seq<T>, seq<Span>)>)
    requires net.Valid() && Fit(net.blocks, prompts) && lo <= hi <= net.blocks.count
    requires maxRetries >= 1
    modifies net
    ensures net.failures >= old(net.failures)
    ensures r.None? ==> net.failures >= old(net.failures) + maxRetries
    ensures r.Some? && net.failures == old(net.failures) <==> net.ForwardClean(old(net.time), lo, hi)
    ensures net.ForwardClean(old(net.time), lo, hi) ==>
              r.value.2 == net.RouteOf(old(net.time), lo, hi) && net.time == net.AfterForward(old(net.time), lo, hi)
    ensures r.Some? ==>
              && r.value.0 == Act(net.blocks, prompts, lo, hi, inputs)
              && Tiles(r.value.2, lo, hi)
              && Saved(net.blocks, prompts, lo, inputs, r.value.1, r.value.2)
  {
    var b := net.blocks;
    var sequences: seq<Span> := [];
    var intermediate: seq<T> := [];
    var done: seq<Span> := [];
    var hidden := inputs;
    var blockIdx := lo;
    ghost var t0, f0 := net.time, net.failures;
    while blockIdx < hi
      invariant lo <= blockIdx <= hi
      invariant sequences != [] ==> Tiles(sequences, blockIdx, hi)
      invariant hidden == Act(b, prompts, lo, blockIdx, inputs)
      invariant Tiles(done, lo, blockIdx) && Saved(b, prompts, lo, inputs, intermediate, done)
      invariant net.failures >= f0
      invariant ForwardSteady(net, t0, lo, hi, blockIdx, done, sequences, net.time, net.failures > f0)
      decreases hi - blockIdx
    {
      ghost var ahead, t, failed := sequences, net.time, net.failures > f0;
      var outcome;
      outcome, sequences := ForwardSpan(net, hidden, prompts, sequences, blockIdx, hi, maxRetries);
      if outcome.None? {
        StaySteady(net, t0, lo, hi, blockIdx, done, ahead, t, failed, Span(0, blockIdx, blockIdx + 1), [], net.time,
                   true);
        return None;
      }
      var (outputs, span) := outcome.value;
      StaySteady(net, t0, lo, hi, blockIdx, done, ahead, t, failed, span, sequences, net.time, net.failures > f0);
      RecordSpan(b, prompts, lo, blockIdx, inputs, intermediate, done, hidden, span);
      intermediate := intermediate + [hidden];
      done := done + [span];
      hidden := outputs;
      blockIdx := span.end;
    }
    if lo < hi && net.failures == f0 {
      SomethingAhead(net, t0, lo, hi, hi, done, sequences, net.time);
      assert done + [] == done;
    }
    return Some((hidden, intermediate, done));
  }

  /** The lists that the forward pass leaves behind. The backward pass copies the inputs first, but takes
      the spans off the very list it is given. */
  class ForwardRecord<T> {
    var inputs: seq<T>
    var spans: seq<Span>
    constructor (inputs: seq<T>, spans: seq<Span>)
      ensures this.inputs == inputs && this.spans == spans
    {
      this.inputs, this.spans := inputs, spans;
    }

    method PopSpan() returns (span: Span)
      requires spans != []
      modifies this`spans
      ensures old(spans) == spans + [span]
    {
      span := spans[|spans| - 1];
      spans := spans[..|spans| - 1];
    }
  }

  function Last<T>(items: seq<T>): T
    requires items != []
  {
    items[|items| - 1]
  }

  function Front<T>(items: seq<T>): (r: seq<T>)
    requires items != []
    ensures items == r + [Last(items)]
  {
    items[..|items| - 1]
  }

  /** torch.cat(reversed[::-1]) */
  function CatReversed<P>(reversed: seq<seq<P>>): seq<P> {
    if reversed == [] then [] else reversed[|reversed| - 1] + CatReversed(reversed[..|reversed| - 1])
  }

  lemma CatReversedAppend<P>(reversed: seq<seq<P>>, last: seq<P>)
    ensures CatReversed(reversed + [last]) == last + CatReversed(reversed)
  {
  }

  lemma EmptyIffNothing(spans: seq<Span>, lo: nat, hi: nat)
    requires Tiles(spans, lo, hi)
    ensures spans == [] <==> lo == hi
  {
    if spans != [] {
      TileBounds(spans, lo, hi, 0);
    }
  }

  lemma PopTiled(spans: seq<Span>, span: Span, lo: nat, hi: nat)
    requires Tiles(spans + [span], lo, hi)
    ensures lo <= span.start < span.end == hi && Tiles(spans, lo, span.start)
  {
    var all := spans + [span];
    TilesPop(all, lo, hi);
    assert all[..|all| - 1] == spans && all[|all| - 1] == span;
  }

  lemma ConcatTiled(spans: seq<Span>, spans': seq<Span>, lo: nat, mid: nat, hi: nat)
    requires Tiles(spans, lo, mid) && Tiles(spans', mid, hi)
    ensures Tiles(spans + spans', lo, hi)
  {
  }

  // ---- what going back over a list of spans computes

  /** Every span lies within the blocks and has an input. */
  ghost predicate Paired<T(!new), P(!new)>(b: Blocks<T, P>, spans: seq<Span>, inputs: seq<T>) {
    && |inputs| == |spans|
    && forall i :: 0 <= i < |spans| ==> spans[i].start <= spans[i].end <= b.count
  }

  /** From the last span to the first, each run backward from the input that is paired with it. */
  ghost function PieceGrad<T(!new), P(!new)>(b: Blocks<T, P>, prompts: Prompts<P>, spans: seq<Span>, inputs: seq<T>,
                                             g: T): T
    requires Fit(b, prompts) && Paired(b, spans, inputs)
    decreases |spans|
  {
    if spans == [] then g
    else
      var span := Last(spans);
      PieceGrad(b, prompts, Front(spans), Front(inputs), Grad(b, prompts, span.start, span.end, Last(inputs), g))
  }

  ghost function PiecePrompts<T(!new), P(!new)>(b: Blocks<T, P>, prompts: Prompts<P>, spans: seq<Span>, inputs: seq<T>,
                                                g: T): seq<P>
    requires Fit(b, prompts) && Paired(b, spans, inputs)
    decreases |spans|
  {
    if spans == [] then []
    else
      var span := Last(spans);
      PiecePrompts(b, prompts, Front(spans), Front(inputs), Grad(b, prompts, span.start, span.end, Last(inputs), g))
      + PromptGrads(b, prompts, span.start, span.end, Last(inputs), g)
  }

  /** The last span of a list is the first one to be run backward. */
  lemma PieceStep<T(!new), P(!new)>(b: Blocks<T, P>, prompts: Prompts<P>, inputs: seq<T>, spans: seq<Span>,
                                    input: T, span: Span, g: T)
    requires Fit(b, prompts) && Paired(b, spans + [span], inputs + [input])
    ensures Paired(b, spans, inputs) && span.start <= span.end <= b.count
    ensures var h := Grad(b, prompts, span.start, span.end, input, g);
            && PieceGrad(b, prompts, spans + [span], inputs + [input], g) == PieceGrad(b, prompts, spans, inputs, h)
            && PiecePrompts(b, prompts, spans + [span], inputs + [input], g)
               == PiecePrompts(b, prompts, spans, inputs, h) + PromptGrads(b, prompts, span.start, span.end, input, g)
  {
    hide Grad, PromptGrads, Act;
    var all, allInputs := spans + [span], inputs + [input];
    assert Last(all) == span && Last(allInputs) == input;
    assert Front(all) == spans && Front(allInputs) == inputs;
    forall i | 0 <= i < |spans| ensures spans[i].start <= spans[i].end <= b.count {
      assert all[i] == spans[i];
    }
  }

  lemma NoPieces<T(!new), P(!new)>(b: Blocks<T, P>, prompts: Prompts<P>, g: T)
    requires Fit(b, prompts)
    ensures PieceGrad(b, prompts, [], [], g) == g && PiecePrompts(b, prompts, [], [], g) == []
  {
  }

  lemma PairedLengths<T(!new), P(!new)>(b: Blocks<T, P>, spans: seq<Span>, inputs: seq<T>)
    requires Paired(b, spans, inputs)
    ensures |inputs| == |spans|
  {
  }

  lemma PairedConcat<T(!new), P(!new)>(b: Blocks<T, P>, spans: seq<Span>, inputs: seq<T>,
                                       spans': seq<Span>, inputs': seq<T>)
    requires Paired(b, spans, inputs) && Paired(b, spans', inputs')
    ensures Paired(b, spans + spans', inputs + inputs')
  {
  }

  /** Going back over a list is going back over its second part, then over its first. */
  lemma {:induction false} PieceConcat<T(!new), P(!new)>(b: Blocks<T, P>, prompts: Prompts<P>, spans: seq<Span>,
                                                         inputs: seq<T>, spans': seq<Span>, inputs': seq<T>, g: T)
    requires Fit(b, prompts) && Paired(b, spans, inputs) && Paired(b, spans', inputs')
    ensures Paired(b, spans + spans', inputs + inputs')
    ensures var h := PieceGrad(b, prompts, spans', inputs', g);
            && PieceGrad(b, prompts, spans + spans', inputs + inputs', g) == PieceGrad(b, prompts, spans, inputs, h)
            && PiecePrompts(b, prompts, spans + spans', inputs + inputs', g)
               == PiecePrompts(b, prompts, spans, inputs, h) + PiecePrompts(b, prompts, spans', inputs', g)
    decreases |spans'|
  {
    hide Grad, PromptGrads, PieceGrad, PiecePrompts, Paired;
    PairedConcat(b, spans, inputs, spans', inputs');
    PairedLengths(b, spans', inputs');
    if spans' == [] {
      NoPieces(b, prompts, g);
      assert spans + spans' == spans && inputs + inputs' == inputs;
    } else {
      var front, span, frontInputs, input := Front(spans'), Last(spans'), Front(inputs'), Last(inputs');
      PieceStep(b, prompts, frontInputs, front, input, span, g);
      PairedConcat(b, spans, inputs, front, frontInputs);
      assert (spans + front) + [span] == spans + spans' && (inputs + frontInputs) + [input] == inputs + inputs';
      PieceStep(b, prompts, inputs + frontInputs, spans + front, input, span, g);
      PieceConcat(b, prompts, spans, inputs, front, frontInputs, Grad(b, prompts, span.start, span.end, input, g));
    }
  }

  /** Over the spans of a forward pass and their exact inputs it is the chain rule. */
  lemma {:induction false} PiecesOfSaved<T(!new), P(!new)>(b: Blocks<T, P>, prompts: Prompts<P>, lo: nat, hi: nat, x: T,
                                                           spans: seq<Span>, inputs: seq<T>, g: T)
    requires Fit(b, prompts) && lo <= hi <= b.count
    requires Tiles(spans, lo, hi) && Saved(b, prompts, lo, x, inputs, spans)
    ensures Paired(b, spans, inputs)
    ensures PieceGrad(b, prompts, spans, inputs, g) == Grad(b, prompts, lo, hi, x, g)
    ensures PiecePrompts(b, prompts, spans, inputs, g) == PromptGrads(b, prompts, lo, hi, x, g)
    decreases |spans|
  {
    hide Grad, PromptGrads, Act, Tiles;
    TilesArePaired(b, lo, hi, spans, inputs);
    if spans == [] {
      EmptyIffNothing(spans, lo, hi);
      NothingToGoBack(b, prompts, lo, x, g);
    } else {
      var span, input := Last(spans), Last(inputs);
      PopSaved(b, prompts, lo, hi, x, Front(spans), Front(inputs), span, input);
      PiecesOfSaved(b, prompts, lo, span.start, x, Front(spans), Front(inputs),
                    Grad(b, prompts, span.start, span.end, input, g));
      Split(b, prompts, lo, span.start, hi, x, g);
    }
  }

  lemma NothingToGoBack<T, P>(b: Blocks<T, P>, prompts: Prompts<P>, lo: nat, x: T, g: T)
    requires Fit(b, prompts) && lo <= b.count
    ensures Grad(b, prompts, lo, lo, x, g) == g && PromptGrads(b, prompts, lo, lo, x, g) == []
  {
  }

  lemma PopSaved<T(!new), P(!new)>(b: Blocks<T, P>, prompts: Prompts<P>, lo: nat, hi: nat, x: T,
                                   spans: seq<Span>, inputs: seq<T>, span: Span, input: T)
    requires Fit(b, prompts) && Tiles(spans + [span], lo, hi)
    requires Saved(b, prompts, lo, x, inputs + [input], spans + [span])
    ensures lo <= span.start < span.end == hi && span.start <= b.count && input == Act(b, prompts, lo, span.start, x)
    ensures Tiles(spans, lo, span.start) && Saved(b, prompts, lo, x, inputs, spans)
  {
    hide Act, Tiles;
    var all, allInputs := spans + [span], inputs + [input];
    PopTiled(spans, span, lo, hi);
    assert all[|spans|] == span && allInputs[|spans|] == input;
    forall i | 0 <= i < |spans|
      ensures lo <= spans[i].start <= b.count && inputs[i] == Act(b, prompts, lo, spans[i].start, x)
    {
      assert all[i] == spans[i] && allInputs[i] == inputs[i];
    }
  }

  lemma TilesArePaired<T(!new), P(!new)>(b: Blocks<T, P>, lo: nat, hi: nat, spans: seq<Span>, inputs: seq<T>)
    requires Tiles(spans, lo, hi) && hi <= b.count && |inputs| == |spans|
    ensures Paired(b, spans, inputs)
  {
    forall i | 0 <= i < |spans| ensures spans[i].start <= spans[i].end <= b.count {
      TileBounds(spans, lo, hi, i);
    }
  }

  // ---- the backward pass

  /** Where the backward pass stands: the spans on the stack tile lo .. mid, and going back over them from
      here completes the total that the whole pass owes. */
  ghost predicate BackwardState<T(!new), P(!new)>(b: Blocks<T, P>, prompts: Prompts<P>, lo: nat, mid: nat,
                                                  inputs: seq<T>,
                                                  spans: seq<Span>, grad: T, reversed: seq<seq<P>>, total: (T, seq<P>))
    requires Fit(b, prompts)
  {
    && lo <= mid <= b.count
    && Tiles(spans, lo, mid) && Paired(b, spans, inputs)
    && PieceGrad(b, prompts, spans, inputs, grad) == total.0
    && PiecePrompts(b, prompts, spans, inputs, grad) + CatReversed(reversed) == total.1
  }

  lemma WithinBlocks<T(!new), P(!new)>(b: Blocks<T, P>, prompts: Prompts<P>, lo: nat, mid: nat, inputs: seq<T>,
                                       spans: seq<Span>, grad: T, reversed: seq<seq<P>>, total: (T, seq<P>))
    requires Fit(b, prompts) && BackwardState(b, prompts, lo, mid, inputs, spans, grad, reversed, total)
    ensures mid <= b.count && |inputs| == |spans|
  {
  }

  /** Adds a span's prompt gradients to the list, if there are prompts. */
  function Extended<P>(prompts: Prompts<P>, reversed: seq<seq<P>>, spanGrads: seq<P>): seq<seq<P>> {
    if prompts.Some? then reversed + [spanGrads] else reversed
  }

  lemma ExtendedCat<T, P>(b: Blocks<T, P>, prompts: Prompts<P>, lo: nat, hi: nat, x: T, g: T, reversed: seq<seq<P>>)
    requires Fit(b, prompts) && lo <= hi <= b.count
    ensures var spanGrads := PromptGrads(b, prompts, lo, hi, x, g);
            CatReversed(Extended(prompts, reversed, spanGrads)) == spanGrads + CatReversed(reversed)
  {
    CatReversedAppend(reversed, PromptGrads(b, prompts, lo, hi, x, g));
  }

  /** One span popped and run backward: what is left to do shrinks by that span. */
  lemma BackwardOverSpan<T(!new), P(!new)>(b: Blocks<T, P>, prompts: Prompts<P>, lo: nat, mid: nat, inputs: seq<T>,
                                           spans: seq<Span>, grad: T, reversed: seq<seq<P>>, total: (T, seq<P>),
                                           input: T, span: Span)
    requires Fit(b, prompts)
    requires BackwardState(b, prompts, lo, mid, inputs + [input], spans + [span], grad, reversed, total)
    ensures lo <= span.start < span.end == mid && Tiles(spans, lo, span.start)
    ensures BackwardState(b, prompts, lo, span.start, inputs, spans,
                          Grad(b, prompts, span.start, mid, input, grad),
                          Extended(prompts, reversed, PromptGrads(b, prompts, span.start, mid, input, grad)), total)
  {
    hide Grad, PromptGrads, Act, PieceGrad, PiecePrompts, CatReversed, Extended;
    PopTiled(spans, span, lo, mid);
    PieceStep(b, prompts, inputs, spans, input, span, grad);
    ExtendedCat(b, prompts, span.start, mid, input, grad, reversed);
  }

  /** A failed span is replaced on the stack by the spans that recomputed its blocks. */
  lemma Replace<T(!new), P(!new)>(b: Blocks<T, P>, prompts: Prompts<P>, lo: nat, mid: nat, inputs: seq<T>,
                                  spans: seq<Span>, grad: T, reversed: seq<seq<P>>, total: (T, seq<P>),
                                  input: T, span: Span, inputs': seq<T>, spans': seq<Span>)
    requires Fit(b, prompts)
    requires BackwardState(b, prompts, lo, mid, inputs + [input], spans + [span], grad, reversed, total)
    requires span.start < span.end <= b.count
    requires Tiles(spans', span.start, span.end) && Saved(b, prompts, span.start, input, inputs', spans')
    ensures BackwardState(b, prompts, lo, mid, inputs + inputs', spans + spans', grad, reversed, total)
    ensures spans' != []
  {
    hide Grad, PromptGrads, Act, PieceGrad, PiecePrompts, CatReversed, Extended;
    PopTiled(spans, span, lo, mid);
    PieceStep(b, prompts, inputs, spans, input, span, grad);
    PiecesOfSaved(b, prompts, span.start, span.end, input, spans', inputs', grad);
    PieceConcat(b, prompts, spans, inputs, spans', inputs', grad);
    ConcatTiled(spans, spans', lo, span.start, mid);
  }

  /** LengthMismatch: the lists do not belong together. Raised: some span failed max_retries times. */
  datatype BackwardResult<T, P> = LengthMismatch | Raised | Gradients(inputs: T, prompts: Prompts<P>)

  function ChainRule<T, P>(b: Blocks<T, P>, prompts: Prompts<P>, lo: nat, hi: nat, x: T, g: T): BackwardResult<T, P>
    requires Fit(b, prompts) && lo <= hi <= b.count
  {
    Gradients(Grad(b, prompts, lo, hi, x, g),
              if prompts.Some? && lo < hi then Some(PromptGrads(b, prompts, lo, hi, x, g)) else None)
  }

  /** What a pass returns that goes back over all of the spans. */
  ghost function Pieces<T(!new), P(!new)>(b: Blocks<T, P>, prompts: Prompts<P>, spans: seq<Span>, inputs: seq<T>,
                                          g: T): BackwardResult<T, P>
    requires Fit(b, prompts) && Paired(b, spans, inputs)
  {
    Gradients(PieceGrad(b, prompts, spans, inputs, g),
              if prompts.Some? && spans != [] then Some(PiecePrompts(b, prompts, spans, inputs, g)) else None)
  }

  /** For the record of a forward pass that is the chain rule. */
  lemma PiecesAreChainRule<T(!new), P(!new)>(b: Blocks<T, P>, prompts: Prompts<P>, lo: nat, hi: nat, x: T,
                                             spans: seq<Span>, inputs: seq<T>, g: T)
    requires Fit(b, prompts) && lo <= hi <= b.count
    requires Tiles(spans, lo, hi) && Saved(b, prompts, lo, x, inputs, spans)
    ensures Paired(b, spans, inputs) && Pieces(b, prompts, spans, inputs, g) == ChainRule(b, prompts, lo, hi, x, g)
  {
    PiecesOfSaved(b, prompts, lo, hi, x, spans, inputs, g);
    EmptyIffNothing(spans, lo, hi);
  }

  /** What a failure, a clean recovery and one more call leave behind: the spans in front of the last one, and all
      but the last of the spans that replaced it. */
  ghost predicate ResplitOnce<T(!new), P(!new)>(net: Network<T, P>, spans0: seq<Span>, t0: nat, spans: seq<Span>,
                                                t: nat)
    requires spans0 != []
  {
    var span := Last(spans0);
    var route := net.RouteOf(t0 + 1, span.start, span.end);
    && route != [] && spans == Front(spans0) + Front(route)
    && t == net.AfterForward(t0 + 1, span.start, span.end) + 1
  }

  /** As long as no call has failed, one span is gone per call; once a call has failed, not all first calls
      could have been answered. */
  ghost predicate BackwardSteady<T(!new), P(!new)>(net: Network<T, P>, t0: nat, spans0: seq<Span>, spans: seq<Span>,
                                                   t: nat, failed: bool) {
    if failed then !net.AllAnswer(t0, t0 + |spans0|)
    else spans <= spans0 && t == t0 + |spans0| - |spans| && net.AllAnswer(t0, t)
  }

  lemma StayBackwardSteady<T(!new), P(!new)>(net: Network<T, P>, t0: nat, spans0: seq<Span>, spans: seq<Span>, t: nat,
                                             failed: bool, spans': seq<Span>, t': nat, failed': bool)
    requires BackwardSteady(net, t0, spans0, spans, t, failed) && spans != []
    requires failed' <==> failed || !net.answers(t)
    requires net.answers(t) ==> t' == t + 1 && spans' == Front(spans)
    ensures BackwardSteady(net, t0, spans0, spans', t', failed')
  {
  }

  /** A retry: the blocks of the failed span are recomputed by sequential_forward and re-split over other
      servers; the last of the new spans is popped, the others stay on the stack. */
  method Resplit<T(!new), P(!new)>(net: Network<T, P>, gradOutputs: T, inputs: seq<T>, record: ForwardRecord<T>,
                                   input: T, span: Span, prompts: Prompts<P>, maxRetries: nat,
                                   ghost lo: nat, ghost mid: nat, ghost reversed: seq<seq<P>>, ghost total: (T, seq<P>))
    returns (ready: bool, rest: seq<T>, input': T, span': Span)
    requires net.Valid() && Fit(net.blocks, prompts) && maxRetries >= 1
    requires BackwardState(net.blocks, prompts, lo, mid, inputs + [input], record.spans + [span],
                           gradOutputs, reversed, total)
    modifies net, record`spans
    ensures BackwardState(net.blocks, prompts, lo, mid, rest + [input'], record.spans + [span'],
                          gradOutputs, reversed, total)
    ensures net.failures >= old(net.failures) + if ready then 0 else 1
    ensures net.ForwardClean(old(net.time), span.start, span.end) ==>
              && ready && net.RouteOf(old(net.time), span.start, span.end) != []
              && record.spans == old(record.spans) + Front(net.RouteOf(old(net.time), span.start, span.end))
              && net.time == net.AfterForward(old(net.time), span.start, span.end)
  {
    hide BackwardState, Tiles, Saved, Clip, Slice, Grad, PromptGrads, Act, PieceGrad, PiecePrompts, CatReversed,
      Extended;
    BackwardOverSpan(net.blocks, prompts, lo, mid, inputs, record.spans, gradOutputs, reversed, total, input, span);
    WithinBlocks(net.blocks, prompts, lo, mid, inputs + [input], record.spans + [span], gradOutputs, reversed, total);
    var recovered := SequentialForward(net, input, prompts, span.start, span.end, maxRetries);
    if recovered.None? {
      return false, inputs, input, span;
    }
    var (_, backupInputs, backup) := recovered.value;
    Replace(net.blocks, prompts, lo, mid, inputs, record.spans, gradOutputs, reversed, total, input, span, backupInputs,
            backup);
    ghost var before := record.spans;
    record.spans := record.spans + backup;
    var extended := inputs + backupInputs;
    ready, rest, input' := true, Front(extended), Last(extended);
    span' := record.PopSpan();
    assert record.spans == (before + backup)[..|before + backup| - 1] == before + Front(backup);
  }

  /** One round of the backward loop: the popped span is run backward, with a re-split in front of every
      attempt but the first. */
  method BackwardRound<T(!new), P(!new)>(net: Network<T, P>, gradOutputs: T, inputs: seq<T>, record: ForwardRecord<T>,
                                         prompts: Prompts<P>, maxRetries: nat,
                                         ghost lo: nat, ghost mid: nat, ghost reversed: seq<seq<P>>,
                                         ghost total: (T, seq<P>))
    returns (r: Option<(T, seq<P>)>, rest: seq<T>, ghost mid': nat)
    requires net.Valid() && Fit(net.blocks, prompts) && maxRetries >= 1
    requires record.spans != []
    requires BackwardState(net.blocks, prompts, lo, mid, inputs, record.spans, gradOutputs, reversed, total)
    modifies net, record`spans
    ensures lo <= mid' < mid && Tiles(record.spans, lo, mid')
    ensures r.Some? ==>
              BackwardState(net.blocks, prompts, lo, mid', rest, record.spans,
                            r.value.0, Extended(prompts, reversed, r.value.1), total)
    ensures net.failures >= old(net.failures) + if r.None? then maxRetries else 0
    ensures r.Some? && net.failures == old(net.failures) <==> net.answers(old(net.time))
    ensures net.answers(old(net.time)) ==>
              net.time == old(net.time) + 1 && record.spans == Front(old(record.spans))
    ensures maxRetries >= 2 && net.FailsOnce(Last(old(record.spans)), old(net.time)) ==>
              && r.Some?
              && ResplitOnce(net, old(record.spans), old(net.time), record.spans, net.time)
    ensures maxRetries == 2 && net.FailsTwice(Last(old(record.spans)), old(net.time)) ==>
              && r.None?
              && ResplitOnce(net, old(record.spans), old(net.time), record.spans, net.time)
  {
    hide BackwardState, Tiles, Grad, PromptGrads, Act, PieceGrad, PiecePrompts, CatReversed, Extended, Clip,
      Network.RouteOf, Network.ForwardClean, Network.AfterForward, Slice;
    var b := net.blocks;
    WithinBlocks(b, prompts, lo, mid, inputs, record.spans, gradOutputs, reversed, total);
    var input := Last(inputs);
    rest := Front(inputs);
    var span := record.PopSpan();
    ghost var first, t0, f0 := span, net.time, net.failures;
    assert record.spans == Front(old(record.spans)) && first == Last(old(record.spans));
    var attemptNo := 0;
    while true
      invariant attemptNo < maxRetries
      invariant BackwardState(b, prompts, lo, mid, rest + [input], record.spans + [span], gradOutputs, reversed, total)
      invariant net.failures >= f0 + attemptNo
      invariant attemptNo <= 1 ==>
                  record.spans == Front(old(record.spans)) && span == first && net.time == t0 + attemptNo
      invariant if attemptNo == 0 then net.failures == f0 else !net.answers(t0)
      invariant attemptNo >= 2 ==> !net.FailsOnce(first, t0)
      decreases maxRetries - attemptNo
    {
      var ready := true;
      if attemptNo >= 1 {
        ready, rest, input, span :=
          Resplit(net, gradOutputs, rest, record, input, span, prompts, maxRetries, lo, mid, reversed, total);
      }
      BackwardOverSpan(b, prompts, lo, mid, rest, record.spans, gradOutputs, reversed, total, input, span);
      mid' := span.start;
      if ready {
        r := net.RemoteBackward(span, input, gradOutputs, Slice(prompts, span.start, span.end), prompts);
        if r.Some? {
          return;
        }
      }
      if attemptNo + 1 == maxRetries {
        return None, rest, mid';
      }
      attemptNo := attemptNo + 1;
    }
  }

  /** The spans that are left, if any, tile a beginning of lo .. hi, but not all of it. */
  ghost predicate StopsShort(spans: seq<Span>, lo: nat, hi: nat) {
    exists mid: nat :: lo <= mid < hi && Tiles(spans, lo, mid)
  }

  lemma BeginBackward<T(!new), P(!new)>(net: Network<T, P>, prompts: Prompts<P>, lo: nat, hi: nat, inputs: seq<T>,
                                        spans: seq<Span>, g: T) returns (total: (T, seq<P>))
    requires Fit(net.blocks, prompts) && lo <= hi <= net.blocks.count
    requires |inputs| == |spans| && Tiles(spans, lo, hi)
    ensures Paired(net.blocks, spans, inputs)
    ensures total
         == (PieceGrad(net.blocks, prompts, spans, inputs, g), PiecePrompts(net.blocks, prompts, spans, inputs, g))
    ensures BackwardState(net.blocks, prompts, lo, hi, inputs, spans, g, [], total)
    ensures BackwardSteady(net, net.time, spans, spans, net.time, false)
  {
    TilesArePaired(net.blocks, lo, hi, spans, inputs);
    total := (PieceGrad(net.blocks, prompts, spans, inputs, g), PiecePrompts(net.blocks, prompts, spans, inputs, g));
  }

  lemma NotAllAnswered<T(!new), P(!new)>(net: Network<T, P>, t0: nat, spans0: seq<Span>, spans: seq<Span>, t: nat)
    requires BackwardSteady(net, t0, spans0, spans, t, true)
    ensures !net.AllAnswer(t0, t0 + |spans0|)
  {
  }

  lemma EndBackward<T(!new), P(!new)>(net: Network<T, P>, prompts: Prompts<P>, lo: nat, mid: nat, hi: nat,
                                      inputs: seq<T>,
                                      spans: seq<Span>, grad: T, reversed: seq<seq<P>>, total: (T, seq<P>),
                                      t0: nat, spans0: seq<Span>, t: nat, failed: bool)
    requires Fit(net.blocks, prompts)
    requires BackwardState(net.blocks, prompts, lo, mid, inputs, spans, grad, reversed, total)
    requires Tiles(spans0, lo, hi) && BackwardSteady(net, t0, spans0, spans, t, failed)
    requires spans == [] || inputs == []
    ensures spans == [] && mid == lo && grad == total.0 && CatReversed(reversed) == total.1
    ensures spans0 == [] <==> lo == hi
    ensures !failed <==> net.AllAnswer(t0, t0 + |spans0|)
    ensures !failed ==> t == t0 + |spans0|
  {
    EmptyIffNothing(spans0, lo, hi);
  }

  /** sequential_backward, for a record whose spans tile lo .. hi. Whatever fails, and however the blocks of
      a failed span are re-split over other servers, a returned result is what going back over the recorded
      spans from the recorded inputs gives; for the record of a forward pass that is the chain-rule gradient,
      with the prompt gradients in layer order. The list of inputs is never changed. The list of spans is used
      up by a pass that returns; a pass that raises leaves it with spans that no longer reach hi. */
  method SequentialBackward<T(!new), P(!new)>(net: Network<T, P>, gradOutputs: T, record: ForwardRecord<T>,
                                              prompts: Prompts<P>, maxRetries: nat, ghost lo: nat, ghost hi: nat)
    returns (r: BackwardResult<T, P>)
    requires net.Valid() && Fit(net.blocks, prompts) && lo <= hi <= net.blocks.count
    requires |record.inputs| == |record.spans| ==> Tiles(record.spans, lo, hi)
    requires maxRetries >= 1
    modifies net, record`spans
    ensures r.LengthMismatch? <==> |record.inputs| != |old(record.spans)|
    ensures r.LengthMismatch? ==> record.spans == old(record.spans) && net.time == old(net.time)
    ensures r.Gradients? ==>
              && record.spans == [] && Paired(net.blocks, old(record.spans), record.inputs)
              && r == Pieces(net.blocks, prompts, old(record.spans), record.inputs, gradOutputs)
    ensures forall x :: r.Gradients? && Saved(net.blocks, prompts, lo, x, record.inputs, old(record.spans)) ==>
                          r == ChainRule(net.blocks, prompts, lo, hi, x, gradOutputs)
    ensures r.Raised? ==> StopsShort(record.spans, lo, hi)
    ensures net.failures >= old(net.failures) + if r.Raised? then maxRetries else 0
    ensures !r.LengthMismatch? ==>
              (r.Gradients? && net.failures == old(net.failures)
               <==> net.AllAnswer(old(net.time), old(net.time) + |old(record.spans)|))
    ensures r.Gradients? && net.failures == old(net.failures) ==> net.time == old(net.time) + |old(record.spans)|
    ensures !r.LengthMismatch? && maxRetries == 2 && old(record.spans) != []
            && net.FailsTwice(Last(old(record.spans)), old(net.time)) ==>
              r.Raised? && ResplitOnce(net, old(record.spans), old(net.time), record.spans, net.time)
  {
    hide BackwardState, BackwardSteady, ResplitOnce, Tiles, Saved, Paired, ChainRule, PieceGrad, PiecePrompts,
      CatReversed;
    if |record.inputs| != |record.spans| {
      return LengthMismatch;
    }
    var b := net.blocks;
    var grad := gradOutputs;
    var inputs := record.inputs;
    var reversed: seq<seq<P>> := [];
    ghost var mid: nat, spans0, t0, f0 := hi, record.spans, net.time, net.failures;
    ghost var total := BeginBackward(net, prompts, lo, hi, inputs, spans0, grad);
    while record.spans != [] && inputs != []
      invariant lo <= mid <= hi && (reversed != [] <==> mid < hi && prompts.Some?)
      invariant BackwardState(b, prompts, lo, mid, inputs, record.spans, grad, reversed, total)
      invariant net.failures >= f0 && BackwardSteady(net, t0, spans0, record.spans, net.time, net.failures > f0)
      invariant if mid == hi then record.spans == spans0 && net.time == t0
                else spans0 != [] && !(maxRetries == 2 && net.FailsTwice(Last(spans0), t0))
      decreases mid
    {
      ghost var before, t, failed := record.spans, net.time, net.failures > f0;
      var round;
      round, inputs, mid := BackwardRound(net, grad, inputs, record, prompts, maxRetries, lo, mid, reversed, total);
      StayBackwardSteady(net, t0, spans0, before, t, failed, record.spans, net.time, net.failures > f0);
      if round.None? {
        NotAllAnswered(net, t0, spans0, record.spans, net.time);
        return Raised;
      }
      grad := round.value.0;
      if prompts.Some? {
        reversed := reversed + [round.value.1];
      }
    }
    EndBackward(net, prompts, lo, mid, hi, inputs, record.spans, grad, reversed, total, t0, spans0, net.time,
                net.failures > f0);
    r := Gradients(grad, if reversed == [] then None else Some(CatReversed(reversed)));
    forall x | Saved(b, prompts, lo, x, record.inputs, spans0)
      ensures r == ChainRule(b, prompts, lo, hi, x, gradOutputs)
    {
      PiecesAreChainRule(b, prompts, lo, hi, x, spans0, record.inputs, gradOutputs);
    }
  }

  /** Two backward passes over the same record. The second one is refused if and only if the numbers of inputs
      and of spans that are left differ. After a pass that returned no span is left, so that is whenever there
      was any block to go back over. After a pass that raised some spans may be left; if they are as many as
      the inputs, the second pass goes back over them, from inputs that need not be theirs. */
  method BackwardTwice<T(!new), P(!new)>(net: Network<T, P>, gradOutputs: T, again: T, record: ForwardRecord<T>,
                                         prompts: Prompts<P>, maxRetries: nat, ghost lo: nat, ghost hi: nat)
    returns (first: BackwardResult<T, P>, left: seq<Span>, second: BackwardResult<T, P>)
    requires net.Valid() && Fit(net.blocks, prompts) && lo <= hi <= net.blocks.count
    requires Tiles(record.spans, lo, hi)
    requires maxRetries >= 1
    modifies net, record`spans
    ensures second.LengthMismatch? <==> |record.inputs| != |left|
    ensures first.LengthMismatch? ==> left == old(record.spans)
    ensures first.Gradients? ==> left == [] && (second.LengthMismatch? <==> lo < hi)
    ensures first.Raised? ==> StopsShort(left, lo, hi)
    ensures second.Gradients? ==>
              && Paired(net.blocks, left, record.inputs)
              && second.inputs == PieceGrad(net.blocks, prompts, left, record.inputs, again)
  {
    first := SequentialBackward(net, gradOutputs, record, prompts, maxRetries, lo, hi);
    left := record.spans;
    ghost var mid: nat := hi;
    if first.Raised? {
      mid :| lo <= mid < hi && Tiles(left, lo, mid);
    } else if first.Gradients? {
      mid := lo;
      EmptyIffNothing(old(record.spans), lo, hi);
    }
    second := SequentialBackward(net, again, record, prompts, maxRetries, lo, mid);
  }

  // ---- a run in which the second pass returns something else

  /** Three blocks that change nothing; the gradient is multiplied by 2, by 3 and by 4. */
  function ScalingBlocks(): Blocks<int, int> {
    Blocks(3, (i: nat, x: int) => x, (i: nat, x: int, g: int) => (i + 2) * g,
           (x: int, p: int) => x, (x: int, p: int) => p)
  }

  /** One server per block. */
  function Singles(lo: nat, hi: nat): (r: seq<Span>)
    requires lo <= hi
    ensures lo < hi ==> RouteOk(r, lo, hi) && Clip(r, hi) == r
  {
    seq(hi - lo, (i: nat) => Span(lo + i, lo + i, lo + i + 1))
  }

  /** At time 0 one server holds blocks 1 and 2; later every block has its own. */
  function TwoThenSingles(t: nat, lo: nat, hi: nat): (r: Option<seq<Span>>)
    ensures r.Some? ==> RouteOk(r.value, lo, hi)
  {
    if lo >= hi then None
    else if t == 0 && lo == 0 && hi == 3 then Some([Span(0, 0, 1), Span(7, 1, 3)])
    else Some(Singles(lo, hi))
  }

  lemma ScaledGradients(x: int, inputs: seq<int>)
    requires |inputs| == 2
    ensures ChainRule(ScalingBlocks(), None, 0, 3, x, 1) == Gradients(24, None)
    ensures var spans := [Span(0, 0, 1), Span(1, 1, 2)];
            && Paired(ScalingBlocks(), spans, inputs)
            && Pieces(ScalingBlocks(), None, spans, inputs, 1) == Gradients(6, None)
  {
    var b := ScalingBlocks();
    assert Grad(b, None, 2, 3, x, 1) == 4 && Grad(b, None, 1, 3, x, 1) == 12;
    var spans := [Span(0, 0, 1), Span(1, 1, 2)];
    assert Front(spans) == [Span(0, 0, 1)] && Front(Front(spans)) == [];
    assert Grad(b, None, 1, 2, inputs[1], 1) == 3 && Grad(b, None, 0, 1, inputs[0], 3) == 6;
  }

  /** The calls at times 3 and 7 fail. */
  predicate FourthAndEighthFail(t: nat) {
    t != 3 && t != 7
  }

  lemma RunOfTheExample(net: Network<int, int>)
    requires net.routes == TwoThenSingles && net.answers == FourthAndEighthFail
    ensures net.ForwardClean(0, 0, 3) && net.AfterForward(0, 0, 3) == 3
    ensures net.RouteOf(0, 0, 3) == [Span(0, 0, 1)] + [Span(7, 1, 3)]
    ensures net.FailsTwice(Span(7, 1, 3), 3) && net.AfterForward(4, 1, 3) == 7
    ensures net.RouteOf(4, 1, 3) == [Span(1, 1, 2)] + [Span(2, 2, 3)]
    ensures net.AllAnswer(8, 10)
  {
  }

  lemma LeftInTheExample(net: Network<int, int>, spans0: seq<Span>, spans: seq<Span>)
    requires net.routes == TwoThenSingles && spans0 == [Span(0, 0, 1)] + [Span(7, 1, 3)]
    requires ResplitOnce(net, spans0, 3, spans, net.time)
    ensures spans == [Span(0, 0, 1), Span(1, 1, 2)] && Tiles(spans, 0, 2) && net.time == 8
  {
    assert net.RouteOf(4, 1, 3) == [Span(1, 1, 2)] + [Span(2, 2, 3)];
  }

  /** The forward pass records two inputs and the spans 0 .. 1 and 1 .. 3. The backward call on the second span
      fails, the span is re-split into two, the call on the second of these fails, and the pass raises. That
      leaves two inputs and two spans, so a second pass over the record is not refused. It returns the gradient
      of blocks 0 and 1, which is 6; that of the blocks that were run forward is 24. */
  method WrongSecondGradient(x: int) returns (first: BackwardResult<int, int>, second: BackwardResult<int, int>)
    ensures first == Raised && second == Gradients(6, None)
    ensures ChainRule(ScalingBlocks(), None, 0, 3, x, 1) == Gradients(24, None)
  {
    hide Act, Grad, PromptGrads, PieceGrad, PiecePrompts, CatReversed, Tiles, Contiguous, RouteOk, Saved, Paired,
      Pieces,
      ChainRule, StopsShort, ResplitOnce, TwoThenSingles, FourthAndEighthFail, Singles, Clip;
    var b := ScalingBlocks();
    var net := new Network<int, int>(b, TwoThenSingles, FourthAndEighthFail);
    RunOfTheExample(net);
    var ran := SequentialForward(net, x, None, 0, 3, 2);
    var record := new ForwardRecord<int>(ran.value.1, ran.value.2);
    first := SequentialBackward(net, 1, record, None, 2, 0, 3);
    LeftInTheExample(net, ran.value.2, record.spans);
    second := SequentialBackward(net, 1, record, None, 2, 0, 2);
    ScaledGradients(x, record.inputs);
  }

  /** A training step: forward, then backward through what the forward pass recorded. If it returns, the
      gradients are those of the simple computation, whatever failed on the way. It returns without a failing
      call exactly if its first route is found and the servers on it answer, forward and backward; it takes
      max_retries failing calls to make it raise. */
  method ForwardBackward<T(!new), P(!new)>(net: Network<T, P>, inputs: T, prompts: Prompts<P>, gradOutputs: T,
                                           maxRetries: nat)
    returns (r: Option<(T, T, Prompts<P>)>)
    requires net.Valid() && Fit(net.blocks, prompts) && maxRetries >= 1
    modifies net
    ensures r.Some? ==>
              && r.value.0 == Act(net.blocks, prompts, 0, net.blocks.count, inputs)
              && r.value.1 == Grad(net.blocks, prompts, 0, net.blocks.count, inputs, gradOutputs)
              && r.value.2 == (if prompts.Some? && net.blocks.count > 0
                               then Some(PromptGrads(net.blocks, prompts, 0, net.blocks.count, inputs, gradOutputs))
                               else None)
    ensures r.Some? ==>
              var n, grads := net.blocks.count, if r.value.2.Some? then r.value.2.value else [];
              && RunsForward(net.blocks, prompts, 0, n, inputs, r.value.0)
              && RunsBackward(net.blocks, prompts, 0, n, inputs, gradOutputs, r.value.1, grads)
              && (prompts.Some? && n > 0 ==>
                    |grads| == n && grads[0] == net.blocks.promptGrad(r.value.1, prompts.value[0]))
    ensures net.failures >= old(net.failures) + if r.None? then maxRetries else 0
    ensures r.Some? && net.failures == old(net.failures)
            <==> net.ForwardClean(old(net.time), 0, net.blocks.count)
                 && net.BackwardClean(old(net.time), 0, net.blocks.count)
  {
    hide RunsForward, RunsBackward, Act, Grad, Saved, Tiles, Paired, PieceGrad, PiecePrompts;
    var n := net.blocks.count;
    ChainRuleIsTraced(net.blocks, prompts, 0, n, inputs, gradOutputs);
    if n > 0 {
      OneBlock(net.blocks, prompts, 0, n, inputs, gradOutputs);
    }
    var ran := SequentialForward(net, inputs, prompts, 0, n, maxRetries);
    if ran.None? {
      return None;
    }
    var record := new ForwardRecord<T>(ran.value.1, ran.value.2);
    var backward := SequentialBackward(net, gradOutputs, record, prompts, maxRetries, 0, n);
    if !backward.Gradients? {
      return None;
    }
    return Some((ran.value.0, backward.inputs, backward.prompts));
  }
}

# A verified model of a layer-sharing inference swarm

The repository runs one large language model on many machines. Servers announce which transformer
blocks they hold and re-balance themselves; clients push activations through chains of servers that
may fail at any moment; an orchestrator hands layer ranges from host to host and pays hosts by the
layer; each server hands out attention-cache memory to concurrent requests. This project models these
parts in Dafny and proves what they are for. `dafny verify dfyconfig.toml` checks all of it.

| module | models |
|---|---|
| `Leximin`, `BlockSelection`, `Announcements`, `Rebalancing` | where a server should host its blocks, the local search that re-balances the swarm, and the spans computed from announcements |
| `Routing`, `Autograd` | fault-tolerant forward and backward passes, client and server side |
| `CausalBlocks`, `InferenceBackend`, `InferenceSession` | cached, chunked, distributed inference with retries and position rollbacks |
| `Registry`, `RegistryInvariant`, `RegistryCoverage`, `RegistryEffects`, `StaleShrinkPlan`, `SwarmRegistryObject` | the layer-ownership protocol of the orchestrator |
| `Manifest`, `HttpChain` | the layer map and generation over it |
| `Payouts` | layer-weighted payouts, the native transfer and the escrow amounts |
| `MemoryCache`, `MemoryCacheProgress`, `StepStream` | the attention-cache allocator and the server's stream of inference requests |

## Main results

* **The re-balancing loop stops**, for every shuffle order, although nothing in the code argues for it.
  Every move strictly raises the ascending-sorted throughput vector in lexicographic order (a server
  with throughput 0 or an empty span changes nothing, but settles); placements are finite. At exit no
  server prefers another start, the incrementally edited array equals the recomputed one, and the
  slowest block is no slower than before.
* **`choose_best_blocks` is optimal** for the sums of the announced throughputs: no other window of the
  size gives a lexicographically larger sorted throughput vector, whatever positive throughput is added.
  An unforced `should_choose_other_blocks` answers yes exactly if the local server cuts nobody off, prefers
  another start, and its move sets off a search that ends at a bottleneck worth it.
* **Training is exact under any failures**: forward and backward return the plain composition of blocks
  and its chain-rule gradients, however spans are re-routed and re-split on retries. A step whose first
  route is found and answered returns; it takes `max_retries` failing calls to make one raise.
* **Inference refines recomputation**: over any run of steps and rollbacks, every output that comes back
  equals recomputing all blocks on everything accepted so far, through stale-tailed caches, chunking,
  merged pools, replaced sessions and lost replies. A step without a failing call returns
  (unless the client moved the position forward before it had sessions); at a later position it returns
  only then.
* **Layer ownership**: in every state of every run, with any failing reloads, online ranges are disjoint,
  non-empty and in bounds, at most one host is pending, and its range has one owner or none. Every step
  keeps all layers covered exactly under a condition that can be checked before the step. For reaping
  several stale hosts, whose reloads may fail one by one, that is a recursion over the departures that
  follows the open holes: a later departure can close an earlier one. Who gives layers away and who takes
  them over is named in terms of the hosts alone.
* **Money is conserved**: a request never pays out more than its price, and pays exactly its price if and
  only if the layer map is complete and every online host has a wallet.
* **Memory**: the bound under any interleaving, and, for every number of tasks in the gap and every
  allocation size that fits, a run that reaches it. A request that may wait and fits fails only because its
  own time is out, and in no state of any run is it stuck.

## Where the code and its documentation or intent disagree

The model follows the code.

* The repository's README.md, line 541, says that coverage is never broken during a handoff. It can be:
  `mark_ready` applies the shrink plan fixed at join time. If a neighbour leaves in between and its layers
  are merged onto the donor, the shrink drops them. `RegistryCoverage.ReadyCoverage` gives the exact
  condition and `StaleShrinkPlan.LayerLostWithoutAnyFailure` a run of five successful operations.
* Inference can recover from a failed server only while no token has been accepted: a replacement session
  starts at position 0, and `inference_session.py:333` then rejects it. `InferenceSession.Session.Step`
  states exactly when a step returns, and `InferenceSession.LoseOneReply` is a run in which one lost reply,
  with everything else perfect and any number of retries, makes a step raise.
* The server's test of `start_from_position` (`block_functions.py:165-167`) asserts a non-empty tuple, so
  it never fires; the server believes whatever position the client sends. The test that was meant is the
  right one: `InferenceBackend.RightIffWithinPrefix` shows that answers are right for every model if and
  only if the position is at most the number of tokens the caches hold, and
  `InferenceBackend.AskBeyondCache` gets a wrong answer from a fresh session at every later position.
* The wait lock of the allocator is released before the memory is counted, so `max_size_bytes` is a bound
  only if one task at a time is in that gap (`MemoryCache.MemoryBound`, `MemoryCache.BoundIsReached`).
* `sequential_backward` edits the list of spans it is given, but works on a copy of the inputs. After a pass
  that returned, a second backward pass over the same record fails its length check
  (`sequential_autograd.py:124`) whenever there was anything to go back over. After a pass that raised, the
  spans that are left no longer reach the end; if they happen to be as many as the inputs, the second pass
  is not refused and returns something else than the gradient of the forward pass (`Autograd.BackwardTwice`,
  with a run in `Autograd.WrongSecondGradient`).
* The test `new_throughput < initial_throughput` in `should_choose_other_blocks` is redundant in exact
  arithmetic: it never changes what the other two tests decide (`Rebalancing.Judge`), and it never holds,
  because the search does not lower the bottleneck (`Rebalancing.FinalIsBetter`); rounding is not modelled.
* `_reclaim_range` lets a later candidate override an adjacent one; with a single hole this is harmless,
  because any candidate that can merge is adjacent (`RegistryCoverage.MergeFillsExactly`). It does decide
  who gets the layers: the first largest host that borders on them, not the first one that does
  (`RegistryEffects.LeaverSucceeded`).

## Model

| member | source | states |
|---|---|---|
| Leximin.SortedIsSorted | petals/src/petals/server/block_selection.py:24 | the sort used for comparing windows is the ascending permutation and keeps every cumulative count |
| Leximin.WorseIffMoreAt | petals/src/petals/server/block_selection.py:24-25 | comparing sorted windows is exactly comparing how many entries are at most w, at the first level where this differs |
| Leximin.MinimumNeverFalls | petals/src/petals/server/block_selection.py:48 | a vector that is not worse has no smaller minimum |
| BlockSelection.BestStartIsLeast | petals/src/petals/server/block_selection.py:23-25 | the chosen start has a least sorted window, and it is the first such start |
| BlockSelection.BestStartIsOptimal | petals/src/petals/server/block_selection.py:23-33 | for any positive throughput added, no other window of the size leaves a larger sorted throughput vector |
| BlockSelection.ThroughputsAfterMove | petals/src/petals/server/block_selection.py:78-86 | the four in-place edits of the throughput array agree with recomputing it from the moved spans |
| BlockSelection.SeenIsOthers | petals/src/petals/server/block_selection.py:53-57 | what a server sees is the throughput of the others, less a thousandth of its own on its own blocks |
| BlockSelection.PreferredIsPoorest | petals/src/petals/server/block_selection.py:53-62 | the preferred start has the first of the most poorly served windows, by the throughput of the other servers alone and a discount of a thousandth on the own blocks |
| BlockSelection.PreferredIsLower | petals/src/petals/server/block_selection.py:53-62 | a server that moves although its own blocks look eps poorer moves to blocks that are truly poorer served |
| BlockSelection.MoveRaises | petals/src/petals/server/block_selection.py:78-86 | taking a server's throughput from its window and giving it to the preferred other one strictly raises the sorted vector |
| BlockSelection.EveryMoveImproves | petals/src/petals/server/block_selection.py:76-86 | any move by any server is progress; strictly in the sorted vector unless the server has throughput 0 or no blocks |
| BlockSelection.ImprovedShrinksMeasure | petals/src/petals/server/block_selection.py:70-86 | progress shrinks a finite set of better placements, or keeps it and shrinks the set of misplaced inert servers |
| BlockSelection.LaterIsImproved | petals/src/petals/server/block_selection.py:70-86 | in a search of any length and order, every later placement improves on every earlier one |
| BlockSelection.RunsOnlyImprove | petals/src/petals/server/block_selection.py:70-90 | no placement ever comes back and the slowest block never gets slower |
| Rebalancing.ComputeThroughputs | petals/src/petals/server/block_selection.py:12-20 | the array filled by slice additions holds, for each block, the sum over the servers that hold it |
| Rebalancing.ChooseWindow | petals/src/petals/server/block_selection.py:30-33 | a start is found exactly when the swarm has that many blocks; it is optimal, and the first of the most poorly served windows |
| Rebalancing.ChooseBestBlocks | petals/src/petals/server/block_selection.py:28-33 | for any announcements, the blocks are consecutive, in range, of the asked number, optimal for the sums of the announced throughputs, and the first such |
| Rebalancing.HonestIsWellformed | petals/src/petals/utils/dht.py:144-152 | announcements whose shortcuts include their own block describe a swarm without reversed spans |
| Rebalancing.ReadSwarm | petals/src/petals/server/block_selection.py:18-30 | for any announcements, the servers read from them are exactly the peers that announce some block as not offline, in id order, and the throughput of each block is the sum of what the peers whose span contains it announce |
| Rebalancing.PlacedServer | petals/src/petals/server/block_selection.py:19 | a server has the announced throughput and the blocks that its span denotes as a slice of the array, which are the span itself unless that is reversed |
| Rebalancing.LoadIsAnnounced | petals/src/petals/server/block_selection.py:18-20 | the throughput of a block is the sum of the announced throughputs over the peers whose span contains it |
| Rebalancing.Relocate | petals/src/petals/server/block_selection.py:82-86 | after a server's share is put back, the array equals the throughputs recomputed from the edited spans |
| Rebalancing.Reconsider | petals/src/petals/server/block_selection.py:77-86 | a turn moves exactly when another start is preferred, moves only that server, and a move is progress |
| Rebalancing.PassImproves | petals/src/petals/server/block_selection.py:75-86 | a pass is progress, or nobody who had a turn wanted to move |
| Rebalancing.PassTurnByTurn | petals/src/petals/server/block_selection.py:76-86 | a pass is one turn after the other in the order of the shuffle, in which one server goes to the start it prefers at that moment |
| Rebalancing.SearchPassByPass | petals/src/petals/server/block_selection.py:70-86 | the search is one pass after the other, each in the order of its own shuffle; every pass but the last changes something, and the last nothing |
| Rebalancing.SearchSettles | petals/src/petals/server/block_selection.py:70-86 | for every sequence of shuffles the search ends in a placement where no server prefers another start, at least as good as the first |
| Rebalancing.OnePass | petals/src/petals/server/block_selection.py:72-86 | the in-place pass gives the specified placement, keeps the array exact, and reports a move exactly when the placement changed |
| Rebalancing.Rebalance | petals/src/petals/server/block_selection.py:70-86 | the loop stops for every sequence of shuffles, exactly where the search ends, with the array equal to the recomputed throughputs |
| Rebalancing.DisconnectIffServedAlone | petals/src/petals/server/block_selection.py:59-60 | the swarm would be cut exactly if all blocks are served and on some block of the local window the others together have at most a thousandth of its throughput |
| Rebalancing.MoveLocal | petals/src/petals/server/block_selection.py:48-68 | the local server moves exactly if it prefers another start and leaves no block behind on which the others have at most a thousandth of its throughput |
| Rebalancing.Judge | petals/src/petals/server/block_selection.py:88-95 | yes exactly when the new bottleneck is at least eps and worth the move; for a quality of at most 1 the test for a lower bottleneck decides nothing |
| Rebalancing.FinalIsBetter | petals/src/petals/server/block_selection.py:66-90 | when the local server moves, the search ends settled, better than today, with a bottleneck that is no slower |
| Rebalancing.FinalPassByPass | petals/src/petals/server/block_selection.py:66-86 | the local server goes first, then pass follows pass until one changes nothing |
| Rebalancing.Decide | petals/src/petals/server/block_selection.py:46-95 | yes exactly if the local server cuts nobody off, prefers another start, and the bottleneck at the end of the search is at least eps and makes the ratio fall below the quality less eps |
| Rebalancing.ShouldChooseOtherBlocks | petals/src/petals/server/block_selection.py:40-95 | forced above quality 1; otherwise it answers exactly when the local peer is announced, by that rule, stated in terms of the announced throughputs |
| Rebalancing.YesMeansFaster | petals/src/petals/server/block_selection.py:89-95 | an unforced yes means that the search ends with a strictly faster bottleneck |
| Announcements.Enter | petals/src/petals/utils/dht.py:141-152 | one announcement updates its peer's span and no other |
| Announcements.ComputeSpans | petals/src/petals/utils/dht.py:134-153 | the table holds for every peer the span folded from its announcements, whatever the order within a block |
| Announcements.SpanCarriesHighestState | petals/src/petals/utils/dht.py:141-152 | a peer has a span exactly when it announces a sufficient state; the span carries its highest state and stays in the window |
| Announcements.SpanRunsFromFirstToLast | petals/src/petals/utils/dht.py:144-152 | without shortcuts the span runs from the first to the last block with the highest state |
| Announcements.SpanExactly | petals/src/petals/utils/dht.py:141-152 | for any announcements: a span carries what is announced at the first block with the highest state, starts there or where that shortcut says, and reaches to the last block in that state if that is further |
| Announcements.StatesAreOrdered | petals/src/petals/data_structures.py:33-36 | offline, joining and online count in this order |
| Announcements.SpanIsPlaced | petals/src/petals/utils/dht.py:144-150 | honest shortcuts give non-empty spans that carry an announced throughput |
| Announcements.ShortcutAgreesWithBlocks | petals/src/petals/utils/dht.py:148-152 | for consecutive blocks in one state, shortcut and block-by-block accumulation give the same span on every window |
| Routing.ClippedRouteTiles | petals/src/petals/client/sequential_autograd.py:63-65 | a route with its last span cut tiles exactly the requested blocks |
| Autograd.Split | petals/src/petals/server/block_functions.py:106-141 | activations, gradients and prompt gradients compose when the blocks are cut in two |
| Autograd.Traces | petals/src/petals/server/block_functions.py:62-141 | activations, gradients and prompt gradients, state by state |
| Autograd.RunRpcForward | petals/src/petals/server/block_functions.py:62-81 | the server runs its blocks one after the other, each on the state in front of it with its prompt added |
| Autograd.RunRpcBackward | petals/src/petals/server/block_functions.py:106-141 | recomputing inputs and going back yields the chain-rule gradient; the gradient of each prompt is cut out of the gradient in front of its block, in layer order |
| Autograd.ForwardAttempt | petals/src/petals/client/sequential_autograd.py:58-98 | an attempt that succeeds advances to its span's end with the right activation, and the rest of the route still tiles the remainder; it takes the next span of the known route, or on a retry of a newly found one, and succeeds exactly if that is found and answered |
| Autograd.ForwardSpan | petals/src/petals/client/sequential_autograd.py:54-98 | the attempts at one span raise after exactly max_retries failing calls; they return at once exactly if the next server answers, and otherwise with the first span of a newly found route |
| Autograd.PieceConcat | petals/src/petals/client/sequential_autograd.py:135-174 | going back over a list of spans, whatever inputs they are paired with, is going back over its second part, then over its first |
| Autograd.PiecesOfSaved | petals/src/petals/client/sequential_autograd.py:135-174 | going back over the spans of a forward pass with their exact inputs is the chain rule, for inputs and prompts |
| Autograd.SequentialForward | petals/src/petals/client/sequential_autograd.py:52-110 | for every failure pattern: the composition of the blocks, spans that tile them, and the exact activation at each span's start; it returns without a failing call exactly if its first route is found and answered, and raises only after max_retries failing calls |
| Autograd.BackwardOverSpan | petals/src/petals/client/sequential_autograd.py:137-174 | running one popped span backward leaves the total unchanged: what is left to do, continued from the new gradient, completes it |
| Autograd.Replace | petals/src/petals/client/sequential_autograd.py:142-153 | a failed span can be replaced by any re-split of its blocks without changing what is left to do |
| Autograd.Resplit | petals/src/petals/client/sequential_autograd.py:142-153 | a retry leaves the total unchanged, and after a clean recovery the stack holds all but the last of the new spans |
| Autograd.BackwardRound | petals/src/petals/client/sequential_autograd.py:137-186 | a round that returns has taken the gradient back over at least one block, whatever failed and however spans were re-split; it returns without a failing call exactly if the first backward call is answered, and raises only after max_retries failing calls; after one failure and a clean recovery it has run the last of the new spans |
| Autograd.SequentialBackward | petals/src/petals/client/sequential_autograd.py:113-196 | refused exactly if the lists differ in length; otherwise, for every failure pattern, what the recorded spans and inputs give, and the chain-rule gradient if they are those of a forward pass, prompt gradients in layer order; a pass that returns empties the spans, one that raises takes max_retries failing calls and leaves spans that stop short of the end; if every first call is answered it returns after one call per span |
| Autograd.BackwardTwice | petals/src/petals/client/sequential_autograd.py:124-153 | whatever came of the first pass, a second one over the same record is refused if and only if the number of spans that are left differs from the number of inputs; after a pass that returned, that is exactly if there was a block to go back over |
| Autograd.WrongSecondGradient | petals/src/petals/client/sequential_autograd.py:124-153 | a run in which the first pass raises, the second one is accepted, and returns another gradient than that of the forward pass |
| Autograd.ForwardBackward | petals/src/petals/client/sequential_autograd.py:26-196 | a training step that returns gives the output and gradients of the plain computation, block by block, with each prompt gradient cut out of the gradient in front of its block; without a failing call it returns exactly if its first route is found and its servers answer forward and backward, and it raises only after max_retries failing calls |
| CausalBlocks.ChunksCompose | petals/src/petals/server/backend.py:132-141 | two chunks in a row give the same outputs and cache entries as one longer chunk |
| CausalBlocks.LayersCausal | petals/src/petals/server/backend.py:134-136 | through any number of blocks, later tokens never change the states of earlier ones |
| CausalBlocks.ContinueIsRecompute | petals/src/petals/server/backend.py:131-136 | continuing from the entries of a prefix is recomputing the whole |
| CausalBlocks.LayersAttend | petals/src/petals/server/backend.py:132-141 | behind each block, token j is made from its own state and the entries of tokens 0 to j, itself included |
| InferenceBackend.EstimateMaxChunkLength | petals/src/petals/server/backend.py:146-152 | the longest chunk whose attention fits the byte limit, and at least one token |
| InferenceBackend.UpdateCacheInPlace | petals/src/petals/server/backend.py:171-181 | only the entries from the prefix length to the new length are written |
| InferenceBackend.InferenceStep | petals/src/petals/server/backend.py:112-144 | for every chunk length: outputs and cache of one call on the whole input, prefix and tail of the cache untouched; each token attends to the cache up to and including its own entry |
| InferenceBackend.HoldPrefix | petals/src/petals/server/block_functions.py:163-168 | caches that hold a sequence hold each of its prefixes: stale entries behind it need no cleaning |
| InferenceBackend.BlockStep | petals/src/petals/server/backend.py:131-143 | one block's continuation takes the states in front of it to those behind it, for the whole sequence |
| InferenceBackend.ServedIsRecomputed | petals/src/petals/server/block_functions.py:163-226 | what the blocks compute from caches that reach up to the position is what recomputing the whole sequence gives |
| InferenceBackend.RightIffWithinPrefix | petals/src/petals/server/block_functions.py:163-168 | answers at a position are right for every model, contents and request if and only if the position is at most the number of tokens held |
| InferenceBackend.AskBeyondCache | petals/src/petals/server/block_functions.py:163-168 | a fresh session of any number of blocks accepts every later position that fits, with an answer that no tokens in front of it explain |
| InferenceBackend.MergedInferenceStep | petals/src/petals/server/backend.py:221-235 | the merged pool gives the result and caches of running the blocks one by one, whatever the caches contain |
| InferenceBackend.PoolTasksExactly | petals/src/petals/server/block_functions.py:194-218 | a request is one task exactly if it has at most 128 tokens in all, or one for the four-bit format; otherwise one task for each block |
| InferenceBackend.RemoteSession.Iterate | petals/src/petals/server/block_functions.py:159-237 | a request is answered exactly if it fits, from whatever the caches contain, merged or not; for a position the caches reach up to, with the recomputed states, and the caches then hold the longer sequence |
| InferenceSession.ServerSession.constructor | petals/src/petals/client/inference_session.py:249-268 | a new session is wired to a server with exactly its span's blocks and both sides agree on nothing processed yet |
| InferenceSession.ServerSession.SetPosition | petals/src/petals/client/inference_session.py:90-95 | succeeds exactly when it does not go forward, and then client history and server cache agree on the shorter prefix |
| InferenceSession.ServerSession.Step | petals/src/petals/client/inference_session.py:97-172 | returns exactly if request and reply arrive, with the recomputed outputs; after a loss at position 0 the history is what was sent |
| InferenceSession.RollBackAll | petals/src/petals/client/inference_session.py:242-247 | every session of the chain ends in sync with the shorter prefix, or the position moved forward and the setter raises |
| InferenceSession.SpliceKeepsTiles | petals/src/petals/client/inference_session.py:387 | replacing a span by a route for its blocks keeps the chain contiguous over all blocks |
| InferenceSession.SplicedWhole | petals/src/petals/client/inference_session.py:384-387 | after the slice replacement all sessions are still wired, separate from each other, and tile all blocks |
| InferenceSession.OthersStayInSync | petals/src/petals/client/inference_session.py:384-387 | sessions on both sides of a replaced one keep what they have processed |
| InferenceSession.Session.SetPosition | petals/src/petals/client/inference_session.py:242-247 | accepted exactly when there are no sessions or it does not go forward; keeps exactly the tokens in front of the position |
| InferenceSession.Session.EnterServerSessions | petals/src/petals/client/inference_session.py:249-271 | one fresh separate session per span, in order, exactly if all servers can be reached |
| InferenceSession.Session.OpenPath | petals/src/petals/client/inference_session.py:376-381 | fresh sessions that tile exactly the requested blocks, exactly if a route is found and its servers can be reached |
| InferenceSession.Session.Replacements | petals/src/petals/client/inference_session.py:364-386 | the first replacement inherits the history, the others start empty, and they tile the failed session's blocks |
| InferenceSession.Session.UpdateSequence | petals/src/petals/client/inference_session.py:364-391 | exactly the session at the index is replaced, all others stay, and the chain still tiles all blocks |
| InferenceSession.Session.Attempt | petals/src/petals/client/inference_session.py:325-344 | an attempt that returns moves the step on by its span; the first one returns exactly if all its calls work; at a later position no other can return |
| InferenceSession.Session.RunBlock | petals/src/petals/client/inference_session.py:325-357 | at position 0 it ends only after max_retries failing calls; later it returns exactly if its one request comes through |
| InferenceSession.Session.RunAllBlocks | petals/src/petals/client/inference_session.py:322-357 | at each block the session at the index starts there; behind the last block all sessions have processed the whole sequence |
| InferenceSession.Session.Step | petals/src/petals/client/inference_session.py:284-362 | the output for the new tokens is that of recomputing all blocks on the whole accepted sequence; a step without a failing call returns; at a later position it returns only then; at position 0 it raises only after max_retries failing calls of its own |
| InferenceSession.Execute | petals/src/petals/client/inference_session.py:242-362 | the effect of a step or a rollback on position and accepted tokens; it raises only at a step during which a call failed, or at a forward move |
| InferenceSession.RunCommands | petals/src/petals/client/inference_session.py:242-362 | over any run: every command is answered as it should be and every output is the recomputed one; a run breaks off only at a step during which a call failed, or at a forward move; failing calls are all accounted for |
| InferenceSession.LoseOneReply | petals/src/petals/client/inference_session.py:329-333 | a run that accepts one step, loses one reply in the next, has a perfect grid otherwise, and raises |
| RegistryInvariant.JoinReserves | orchestrator/app/registry.py:239-273 | a join reserves exactly the requested layers at the high end of a largest online host, which keeps at least one |
| RegistryInvariant.JoinKeepsInv | orchestrator/app/registry.py:214-286 | a join, refused or not, keeps the registry invariant |
| RegistryInvariant.MarkReadyKeepsInv | orchestrator/app/registry.py:288-344 | so does mark_ready, whether or not the reload works |
| RegistryInvariant.MergeIsFree | orchestrator/app/registry.py:471-486 | the merged range contains both parts, meets no other online host, and no reservation straddles its border |
| RegistryInvariant.ReclaimKeepsInv | orchestrator/app/registry.py:488-532 | reclaiming a free range keeps the invariant, with any donor and any reload outcome |
| RegistryInvariant.LeaveKeepsInv | orchestrator/app/registry.py:382-404 | so does a departure |
| RegistryInvariant.LeaveRemoves | orchestrator/app/registry.py:382-404 | a departure removes exactly the named contributor |
| RegistryInvariant.ReapRemovesExactly | orchestrator/app/registry.py:406-453 | a reaper removes exactly the hosts that satisfied its test when it started, whatever reloads fail |
| RegistryInvariant.StepKeepsInv | orchestrator/app/registry.py:214-453 | every operation keeps the invariant |
| RegistryInvariant.RunsKeepInv | orchestrator/app/registry.py:214-532 | every state of every run: disjoint non-empty online ranges in bounds, exact layer counts, mother at layer 0, one pending host at most, whose range has one owner or none |
| RegistryCoverage.MergeFillsExactly | orchestrator/app/registry.py:471-512 | with one hole, whoever passes the conflict test is adjacent and takes over exactly the hole |
| RegistryCoverage.ReclaimFillsHole | orchestrator/app/registry.py:488-532 | reclaiming the only hole always finds a donor and fills it |
| RegistryCoverage.LeaveCoverage | orchestrator/app/registry.py:382-404 | a departure keeps all layers covered if and only if the reload works or the leaver served nothing |
| RegistryCoverage.HandsOverIffOk | orchestrator/app/registry.py:288-316 | for a pending host mark_ready succeeds exactly if its donor is registered and the reload works: the plan is always there and no other reservation is in the way |
| RegistryCoverage.HandOverSplits | orchestrator/app/registry.py:318-344 | while the plan fits, a hand-over splits the donor's range in two and touches nobody else |
| RegistryCoverage.ReadyCoverage | orchestrator/app/registry.py:326-336 | mark_ready keeps all layers covered if and only if its guard (pending host, registered donor, working reload) fails or the donor's range is still what the plan splits |
| RegistryCoverage.ServingStaysServing | orchestrator/app/registry.py:382-404 | a departure changes nobody else's part |
| RegistryCoverage.PendingReapCoverage | orchestrator/app/registry.py:430-453 | reaping pending hosts never loses a layer, whatever reloads fail |
| RegistryCoverage.StaleReapCoverage | orchestrator/app/registry.py:406-428 | reaping stale hosts keeps all layers covered if their reloads work, and loses some if the last of them fails; with one stale host that is exact |
| RegistryCoverage.LeaveMovesHoles | orchestrator/app/registry.py:382-404 | a departure opens the leaver's layers and closes all holes in the range of the host that takes them over |
| RegistryCoverage.OpenLayersAreUncovered | orchestrator/app/registry.py:415-425 | following the holes through any departures, with any reloads failing and any holes to begin with, gives exactly the layers without a host |
| RegistryCoverage.LeaveAllCoverageIff | orchestrator/app/registry.py:415-425 | any list of departures keeps all layers covered if and only if no hole is open after the last of them |
| RegistryCoverage.StepCoverage | orchestrator/app/registry.py:214-453 | every step keeps all layers covered if and only if a condition on the state before it holds |
| RegistryCoverage.RunsKeepCoverage | orchestrator/app/registry.py:214-532 | while every step is of that kind, the online ranges stay an exact partition of all layers |
| RegistryEffects.LeaverSucceeded | orchestrator/app/registry.py:382-532 | when all layers were covered, a leaver whose reload works is succeeded by exactly one host: the mother if her range ends where it begins, otherwise the first largest remaining host if that borders on it, otherwise the first that does; that host grows to the hull and every other record stays |
| RegistryEffects.LeaveExactly | orchestrator/app/registry.py:382-404 | a departure in any state of the registry, host by host, with its outcome |
| RegistryEffects.ChosenExactly | orchestrator/app/registry.py:488-512 | who takes a free range over: the mother if she can, otherwise the first largest online host if it can, otherwise the first bordering one |
| RegistryEffects.CanMergeExactly | orchestrator/app/registry.py:471-486 | a host can take a free range over exactly if no other online host is on either or in between, and then gets the hull |
| RegistryEffects.JoinExactly | orchestrator/app/registry.py:214-273 | when a join is refused and why, and which record it adds otherwise |
| RegistryEffects.MarkReadyExactly | orchestrator/app/registry.py:288-344 | when mark_ready fails and why, and which two records it changes otherwise |
| RegistryEffects.SelectKeepsOrder | orchestrator/app/registry.py:406-453 | the reapers list exactly the hosts that satisfy their test, in the order of the registry |
| StaleShrinkPlan.LayerLostWithoutAnyFailure | orchestrator/app/registry.py:331-335 | a run of five successful operations after which a layer has no host |
| StaleShrinkPlan.HoleCarriedAlong | orchestrator/app/registry.py:415-425 | with one of two reloads failing, whether layers are lost depends on the order of the departures |
| SwarmRegistryObject.SwarmRegistry.constructor | orchestrator/app/registry.py:88-114 | a new registry has the mother on all layers and satisfies the invariant |
| SwarmRegistryObject.SwarmRegistry.EffectiveDonorRange | orchestrator/app/registry.py:198-212 | the loop finds the least of the donor's end and the starts of the ranges that pending hosts have reserved from it |
| SwarmRegistryObject.SwarmRegistry.MaxCarveable | orchestrator/app/registry.py:184-190 | one less than the unreserved layers of the first largest online host; a join with a valid wallet succeeds exactly for 1 up to this many layers while nobody is pending |
| SwarmRegistryObject.SwarmRegistry.Join | orchestrator/app/registry.py:214-286 | a join succeeds exactly for a valid wallet, nobody pending, and fewer layers than the first largest online host has; it adds one record with the high end of that host's layers; it loses no layer, and changes nothing when refused |
| SwarmRegistryObject.SwarmRegistry.SomeReservationBlocks | orchestrator/app/registry.py:302-316 | blocked exactly if another reservation on the donor lies outside the shrunk range |
| SwarmRegistryObject.SwarmRegistry.MarkReady | orchestrator/app/registry.py:288-344 | each outcome with its cause; on success the donor has the planned range, the host is online, and nobody else changes; it keeps all layers covered exactly under the guard above |
| SwarmRegistryObject.SwarmRegistry.Heartbeat | orchestrator/app/registry.py:362-370 | a heartbeat renews the time stamp of the named host, brings it back online if it was offline, changes nobody else, and keeps the invariant |
| SwarmRegistryObject.SwarmRegistry.FindAdjacentDonor | orchestrator/app/registry.py:461-469 | the first online host that borders on the range, if there is one |
| SwarmRegistryObject.SwarmRegistry.RangeCoveredByOnline | orchestrator/app/registry.py:372-380 | covered exactly if some other online host holds the whole range |
| SwarmRegistryObject.SwarmRegistry.PickDonor | orchestrator/app/registry.py:503-512 | the first candidate that is the mother and can merge; if there is none, the last one that can merge |
| SwarmRegistryObject.SwarmRegistry.ReclaimRange | orchestrator/app/registry.py:488-532 | a free range goes to its successor and nobody else changes; a failing reload changes nothing |
| SwarmRegistryObject.SwarmRegistry.Leave | orchestrator/app/registry.py:382-404 | each outcome with its cause, and who takes the layers over; it removes exactly the named contributor and keeps all layers covered exactly if the reload works or the leaver served nothing |
| SwarmRegistryObject.SwarmRegistry.LeaveEach | orchestrator/app/registry.py:415-425 | the reapers' loop goes on after failures and keeps the invariant |
| SwarmRegistryObject.SwarmRegistry.ReapStaleHosts | orchestrator/app/registry.py:406-428 | reaping removes exactly the hosts that were stale at the start, and loses no layer exactly if no hole is open after the last departure, in particular if all their reloads work |
| SwarmRegistryObject.SwarmRegistry.ReapStalePendingHosts | orchestrator/app/registry.py:430-453 | reaping removes exactly the pending hosts that were never ready and loses no layer |
| Manifest.CheckComplete | orchestrator/app/swarm_map.py:74-85 | the sweep decides the completeness predicate |
| Manifest.IsCompleteIff | orchestrator/app/swarm_map.py:74-85 | complete exactly when every layer is on exactly one span and no span reaches outside, for any spans at all |
| Manifest.MakeManifest | orchestrator/app/swarm_map.py:88-110 | the manifest lists exactly the online hosts' ids, roles and ranges, sorted by start |
| Manifest.ManifestCompleteIffCovered | orchestrator/app/swarm_map.py:74-110 | in every registry state, complete exactly when every layer has an online host |
| Manifest.TailContributor | orchestrator/app/swarm_map.py:67-72 | the first contributor span whose end no other contributor exceeds, if there is a contributor |
| Manifest.TailIsLast | orchestrator/app/swarm_map.py:67-72 | in a complete manifest with a contributor, the tail is the last span and ends at the last layer; the mother is never the tail |
| HttpChain.ValidateChainCoverage | shard_manager/http_chain.py:94-108 | valid exactly if the spans follow one another from layer 0 and, unless the total is 0, end there |
| HttpChain.SweepRunsAll | shard_manager/http_chain.py:94-108 | spans that pass the sweep apply every layer up to the end of the last span exactly once, in order |
| HttpChain.OnlyLastReversed | shard_manager/http_chain.py:88-108 | among sorted spans that pass the sweep only the last can be reversed |
| HttpChain.HiddenStates | shard_manager/http_chain.py:216-238 | succeeds exactly if every upstream hop does, with the states after all hops in order |
| HttpChain.ForwardPrefix | shard_manager/local_runner.py:164-170 | embedding, then this node's layers, one after the other |
| HttpChain.ForwardTail | shard_manager/local_runner.py:172-177 | this node's layers on given states, one after the other |
| HttpChain.Generate | shard_manager/http_chain.py:144-276 | it answers only on a gapless chain whose tail is here, and then does if no hop fails; if the local range is not reversed and ends with the model, the tokens are those a single node generates; each token is one draw from the logits behind the last span, and their number is max_tokens within 1 to 512, or fewer ending with eos |
| HttpChain.RegistryChainIsValid | shard_manager/http_chain.py:156-167 | a complete manifest of any registry state passes the checks, its tail ends with the last layer, and the routed tail is the one generate accepts |
| Payouts.PlanPayouts | orchestrator/app/hedera_payouts.py:154-170 | one payout for each host with a wallet and at least one layer, in order, with its id, account, layers and their price |
| Payouts.PaidHostByHost | orchestrator/app/registry.py:175-182 | a request pays the online hosts with a wallet and at least one layer, in order, each for its layers |
| Payouts.BuildTransfer | orchestrator/app/hedera_payouts.py:244-260 | the legs sum to zero, every other account receives exactly its positive payouts, and the mother pays all of that |
| Payouts.NothingNegative | orchestrator/app/hedera_payouts.py:246-250 | when no amount is negative, the positive payouts credit and total what was planned |
| Payouts.EscrowAmounts | orchestrator/app/hedera_escrow.py:90-109 | recipients and amounts are those of the positive planned payouts, in order |
| Payouts.EscrowPaysPlan | orchestrator/app/hedera_escrow.py:93-100 | for a positive price the escrow pays exactly the plan of the native path |
| Payouts.DoubleCount | orchestrator/app/registry.py:175-182 | counting layers host by host equals counting hosts layer by layer |
| Payouts.OnlineLayersBounded | orchestrator/app/swarm_map.py:74-85 | online hosts hold at most all layers, and all of them exactly when the manifest is complete |
| Payouts.PayoutsNeverExceedPrice | orchestrator/app/config.py:69-71 | payouts never exceed the price of a request, with equality exactly for a complete map where every online host has a wallet |
| MemoryCache.CountersStayExact | petals/src/petals/server/memory_cache.py:118-177 | every action keeps both counters equal to the sums over live and over waiting allocations, on every exit path |
| MemoryCache.StepKeepsBound | petals/src/petals/server/memory_cache.py:150-160 | a task that passes the check beside at most k - 1 others keeps the committed size within the bound |
| MemoryCache.MemoryBound | petals/src/petals/server/memory_cache.py:126-193 | on every interleaving memory in use exceeds the maximum by at most k - 1 allocations; for k = 1 not at all |
| MemoryCache.BoundIsReached | petals/src/petals/server/memory_cache.py:126-161 | for every k and every allocation size m that fits into the cache, a run that uses the maximum and k - 1 allocations more |
| MemoryCache.CommitStep | petals/src/petals/server/memory_cache.py:127-132 | a commit gives out only new handles and announces exactly them |
| MemoryCache.ReleaseStep | petals/src/petals/server/memory_cache.py:169-177 | a release takes exactly the task's handles out |
| MemoryCache.OneHandlePerTensor | petals/src/petals/server/memory_cache.py:127-132 | an allocation has one handle for each tensor it asked for |
| MemoryCache.RuntimeSeesLiveHandles | petals/src/petals/server/memory_cache.py:195-221 | handles are never reused, and after draining the pipe the table is exactly the live handles |
| MemoryCache.Runtime.DrainPipe | petals/src/petals/server/memory_cache.py:207-220 | the read loop brings the table to the state after all messages |
| MemoryCacheProgress.LetThroughIffItFits | petals/src/petals/server/memory_cache.py:145-156 | a request passes its check exactly if it fits beside the memory in use; otherwise it waits unless it never can fit or asked not to; a waiting one passes exactly when it fits |
| MemoryCacheProgress.OnlyTimeFails | petals/src/petals/server/memory_cache.py:143-193 | over every run, a request that may wait and fits into the cache fails only by giving up when its own time is out |
| MemoryCacheProgress.FailedHasReason | petals/src/petals/server/memory_cache.py:143-193 | over every run, a request that fails has timed out, asked not to wait for a full cache, or asked for more than there is |
| MemoryCacheProgress.PassedHasFitted | petals/src/petals/server/memory_cache.py:150-156 | over every run, a request that was let through fitted beside the memory in use at that moment |
| MemoryCacheProgress.AdmittedAtOnce | petals/src/petals/server/memory_cache.py:147-148 | over every run, a request that asked not to wait was admitted while the cache was not full, counting the waiting ones |
| MemoryCacheProgress.OneLockHolder | petals/src/petals/server/memory_cache.py:149-156 | at most one task holds the memory lock in every state of every run |
| MemoryCacheProgress.NeverStuck | petals/src/petals/server/memory_cache.py:126-193 | from every state of every run, a request that may wait and fits can still get its memory without anybody giving up |
| StepStream.EachStepOnce | petals/src/petals/server/handler.py:270-273 | no step id is handed on twice, every received one is, and nothing else |
| StepStream.HandedOnOneByOne | petals/src/petals/server/handler.py:270-273 | handed on are, in order, the requests without a step id and the first one of each step id |
| StepStream.OrderTakesPrefixes | petals/src/petals/server/handler.py:284-300 | the requests taken are the first one and one prefix of each stream |
| StepStream.OrderAt | petals/src/petals/server/handler.py:284-300 | after each wait the next client request is taken if one is ready, even if a push is ready too, and otherwise the next push |
| StepStream.IterateInferenceSteps | petals/src/petals/server/handler.py:255-305 | for every schedule: requests are taken in exactly the specified order, a ready client request in front of a push; the first request of each step is handed on; and why the stream stops |
| StepStream.ClientStepsHandedOn | petals/src/petals/server/handler.py:255-305 | every step the client delivered before the stream stopped is handed on, once |

## Left out

Modelling choices and their limits:

- Arithmetic in block selection is exact (`real`); floating-point rounding is not modelled.
- Blocks are uninterpreted functions: tensors, quantisation, adapters and dtypes do not appear, and a server that answers is taken to compute correctly.
- The router is a contract (contiguous spans from the asked block, only the last reaching the goal); its choice is an oracle.
- `max_retries` is a finite number of at least 1; a run with unlimited retries that returns is a run with a large enough limit.
- Clocks, identifiers, reload outcomes, shuffles and network fates are parameters.
- Rebalancing.ShouldChooseOtherBlocks: asks for spans that are not reversed; shortcut fields that leave out the block they are announced under can give a span of negative length, and moving such a span is not modelled.
- Rebalancing.Reconsider: spans are values in an array that is edited in place, not separate objects, so aliasing of span objects is not captured.
- Ranges are pairs of integers instead of strings; host records are values in an insertion-ordered sequence, so records handed out to callers and changed there are not captured.
- SwarmRegistryObject.SwarmRegistry.constructor: URLs, bootstrap peers and persistence are left out, and so is loading a persisted registry.
- SwarmRegistryObject.SwarmRegistry.MarkReady: is one atomic step; the gap between its two locked sections, in which the reload happens, is not interleaved with other operations.
- SwarmRegistryObject.SwarmRegistry.Leave: is one atomic step; the gap between the removal and the reclaim is not interleaved.
- SwarmRegistryObject.SwarmRegistry.ReclaimRange: is one atomic step; the gap between choosing a donor and writing its range is not interleaved.
- Steps that overwrite ranges from live probes or heartbeat manifests (`refresh_live_status`, `apply_heartbeat_manifest`, `sync_mother_from_shard`) can install any range and are not steps of a run.
- Registry.Join: a wallet must be `0.0.` and ASCII digits; trimming white space and other Unicode digits are not modelled.
- InferenceSession.Session.Step: deep prompts and beam reordering (`hypo_ids`) are not part of the inference model, nor is closing a session.
- The position of a server session is never None in this client, so the branch that lets servers push to each other is not reached; links between sessions are left out.
- Batches of the autograd function are independent calls and are not modelled.
- HttpChain.Generate: URL rules are part of the fate of a hop, and penalties, temperature and the random draw are one uninterpreted `sample`. Remote hosts are taken to run the ranges of the manifest.
- MemoryCache.RuntimeSeesLiveHandles: ignores the overflow of the handle counter; sizes of tensors and the maximum over devices are one number.
- Tasks that are cancelled inside the allocator otherwise than by a time-out are not modelled.
- MemoryCacheProgress.NeverStuck: a waiting task can look again at any time; the event that wakes it up is not modelled, and neither is fairness among the tasks that queue for the lock.
- StepStream.IterateInferenceSteps: session queues and their event loop are an oracle that says what is ready.

Parts of the repository that are not modelled: networking, DHT and process supervision; Hedera SDK calls,
consensus-service logging and ENS verification; the payment gateway; web and command-line front ends;
`packages/cli/runtime`, whose files are near-copies of those of `shard_manager`.

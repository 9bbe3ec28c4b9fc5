# minesim fork-choice core in Dafny

minesim is a discrete-event simulator of proof-of-work mining. Miners mine on
a tip block. Mined blocks are relayed over delayed peer links. A miner switches
to a received block when that block is strictly higher than its own tip. Once
every miner mines on the same block, the block arena is pruned down to that
block, and each block on the agreed chain is credited once to the miner that
mined it.

This project models:

- the block arena: `validblock`, `getblock`, `getheight`, append and prune;
- the tip-count map kept by `stopMining` and `startMining`;
- `relay`;
- the event queue, popped in time order;
- the body of the main loop: pruning with credit, then handling one event;
- the genesis set-up.

It then proves properties of that model:

- the loop invariant;
- reorg depth;
- crediting;
- the tip-count map;
- the clock.

Modules:

- `BlockArena` (arena.dfy): blocks, ids, well-formedness, ancestry, reorg depth.
- `TipCount` (tip_count.dfy): the tip-count map and its agreement with the miners' tips.
- `EventQueue` (event_queue.dfy): events and the earliest-first pop.
- `Ledger` (ledger.dfy): miners, counters and the credit walk run when pruning.
- `Sim` (sim.dfy): the simulator state, its invariant, genesis set-up, relay,
  the mining and receive transitions, and pruning.
- `MainLoop` (main_loop.dfy): the repetition loop.

Modelling choices:

- Times and delays are `real`.
- Block ids, heights and counters are unbounded `int`.
- The event queue is a multiset. Its pop returns some event with minimal
  `when`. Ties are not broken in any fixed way, just as the heap does not
  order events with equal times.
- The random solve time that `startMining` draws is a parameter:
  - `Init` takes one solve time per miner;
  - each main-loop iteration takes one.
- `Mine` and `Receive` are written as single state updates. They perform, in
  the same order as the code:
  - stopMining: decrement the old tip's count, deleting the key when it reaches zero;
  - relay, against the tips as they are before the switch;
  - startMining: increment the new tip's count and schedule the next mining event.
- Block ids are not unique over a run, and the model keeps this. A prune
  keeps only the common tip and drops every orphan, including orphans with
  higher ids. The next block then receives the id `base + length`
  (minesim.go:278-279, 295), which can be the id of a dropped orphan. Events
  are matched to blocks by id alone (minesim.go:288, 305), so a pending
  mining event or receive event created for the orphan applies to the new
  block. `Sim.ReissuedId` exhibits a run in which this happens.

## Model

| member | source | states |
|---|---|---|
| `BlockArena.ValidBlock` | minesim.go:103-106 | An id is valid exactly when it is at least the base and less than the base plus the number of retained blocks, so pruned ids and ids not yet issued are both invalid. It has no contract of its own: `BlockArena.Genesis`, `BlockArena.Append` and `BlockArena.Truncate` state which ids are valid after each write. |
| `BlockArena.GetBlock` | minesim.go:107-109 | A valid id resolves to the block stored at its offset from the base; the precondition is the validity the code leaves to its callers. Its meaning is stated by `BlockArena.Append` (old ids keep their block, the new id holds the new block) and `BlockArena.Truncate`. |
| `BlockArena.GetHeight` | minesim.go:110-112 | The height of a valid id is the height recorded on its block. `BlockArena.AboveBase` and `BlockArena.AncestorAt` state what heights look like in a well-formed arena. |
| `BlockArena.Genesis` | minesim.go:80-88 | The initial arena is well formed and holds only the genesis block, at height 0 with id 1000, which is the only valid id. |
| `BlockArena.Append` | minesim.go:295-300 | Appending keeps the base and every old id bound to its block, and makes exactly one new id valid: base + length, holding the new block. When the block is a child one level above a retained block, the arena stays well formed and the base height is unchanged. |
| `BlockArena.Truncate` | minesim.go:277-279 | After pruning to a block, that block is the only valid id, it is the new base, the arena is well formed, and the base height becomes that block's height. |
| `BlockArena.AboveBase` | minesim.go:295-297 | Every retained block is at least as high as the base, and every block other than the base is strictly higher. |
| `BlockArena.AncestorAt` | minesim.go:315-317 | Walking back from a block to a lower height yields a valid block at exactly that height, with an id no larger. |
| `BlockArena.StepsToMeet` | minesim.go:319-324 | From two blocks of equal height, the lockstep walk counts the steps until the chains meet. Below that height the two ancestors coincide; at every height above it they differ. |
| `BlockArena.ReorgDepth` | minesim.go:312-324 | The reorg depth is the number of old-branch blocks above the deepest common ancestor: the old tip's ancestor at that depth is an ancestor of the new block, and none above it is. The depth is 0 exactly when the old tip is an ancestor of the new block. |
| `BlockArena.ForkOfDepthOne` | minesim.go:309-331 | On a concrete one-block fork, switching from the losing sibling to the extended branch has reorg depth 1. Switching from the block that the new tip extends has depth 0. |
| `TipCount.Decrement` | minesim.go:129-135 | stopMining lowers the tip's count by one and deletes the key exactly when the count was 1. Every other key keeps its count. |
| `TipCount.Increment` | minesim.go:157-161 | startMining raises the new tip's count by one (a missing key counts as 0). Every other key keeps its count. |
| `TipCount.MoveTally` | minesim.go:294-335 | stopMining followed by startMining turns the tally of the old tips into the tally of the tips with one miner moved. |
| `TipCount.SumIsMinerCount` | minesim.go:129-161 | The counts of the tally add up to the number of miners. |
| `TipCount.UniformTally` | minesim.go:260-263 | All miners starting on the genesis block give a single key whose count is the number of miners. |
| `EventQueue.EarliestExists` | minesim.go:114-127 | A non-empty queue always has an event that no other pending event precedes. |
| `EventQueue.PopEarliest` | minesim.go:281 | The pop returns an event no pending event precedes, and the queue with exactly one copy of it removed. |
| `Ledger.CreditChain` | minesim.go:271-276 | The prune walk gives each miner exactly as much credit as it has blocks on the chain from the new base down to, but not including, the old base. Total credit grows by the height difference. |
| `Ledger.ChainBounded` | minesim.go:273-276 | A miner's blocks on that chain are no more than its retained blocks up to the new base. |
| `Ledger.TotalCreditUpdate` | minesim.go:274 | Changing one miner's counter changes the total by exactly that change. |
| `Ledger.CountersGrowTotal` | minesim.go:274 | When no miner's credit counter goes down, the total credit does not go down either. |
| `Sim.Init` | minesim.go:259-263 | Set-up establishes the invariant. It starts from the genesis arena with each miner on genesis and zero counters, one key counting all miners, and exactly one mining event per miner, due at its solve time. |
| `Sim.RelayCounts` | minesim.go:143-153 | Taking the peer links one at a time, in order: the events relayed over all links occur, each, as often as over all but the last link, plus once more when the last link's peer is behind and the event is the one that link schedules. |
| `Sim.Behind` | minesim.go:145 | A peer is behind a block when the height of the peer's current tip is strictly below the block's height; only such peers are relayed to (see `Sim.RelayEvents`). |
| `Sim.RelayEvents` | minesim.go:140-154 | relay schedules one receive event per peer link whose peer's tip is lower than the new block, and none for the others. Their number is the count of such links. Each event occurs exactly as many times as there are such links it is scheduled on, even when a peer is listed more than once. An event is scheduled exactly when it goes to such a peer, carries the block and is due after that link's delay. |
| `Sim.Mine` | minesim.go:286-300 | A non-stale mining event appends exactly one block, with id base + length, the old tip as parent, one more height and the miner as miner; no old block changes. The miner's mined count rises by 1 and its tip moves to the new id; other miners are unchanged. The queue loses the event and gains the relayed events and one new mining event. |
| `Sim.Receive` | minesim.go:304-335 | A strictly higher received block leaves the arena unchanged and moves only the receiving miner to it. The deepest reorg becomes the larger of its old value and the depth of this switch. The queue loses the event and gains the relayed events and one new mining event. |
| `Sim.Discarded` | minesim.go:288-308 | The tests compare ids only. A mining event is discarded exactly when its id differs from the miner's tip. A receive event is discarded exactly when its id does not resolve, or resolves to a block that is not strictly higher than the miner's tip. Ids are reissued after a prune (see `Sim.ReissuedId`), so a matching id may name a different block than the one the event was created for. `Sim.Handle` states that a discarded event changes nothing but the clock and the queue. |
| `Sim.Handle` | minesim.go:281-335 | Processing an event sets the clock to its time and never lowers the deepest reorg. It keeps the base and every old block, never changes a credit counter, and never lowers a mined count. A discarded event (stale, pruned, or not strictly higher) only removes itself from the queue and moves the clock. Otherwise the miner's tip moves to a valid, strictly higher block. |
| `Sim.PruneDue` | minesim.go:267 | Pruning is due exactly when the tip map has one key and the arena holds more than the base block. `Sim.Prune` states what happens in each case. |
| `Sim.Prune` | minesim.go:267-280 | When exactly one block is being mined on and the arena holds more than the base: all miners are on that block, it becomes the sole retained block, and each miner is credited with its blocks on the chain. Total credit rises by the height gained, and no counter goes down. Otherwise nothing changes. Clock, queue, tip map and deepest reorg are never touched. |
| `Sim.PruneIdempotent` | minesim.go:267-280 | Pruning keeps the invariant, and pruning again at once changes nothing, so no block is credited twice. |
| `Sim.PruneKeepsInv` | minesim.go:267-280 | Pruning keeps the invariant: tips stay valid, and credit plus retained own blocks still never exceeds mined. |
| `Sim.PruneRaisesBase` | minesim.go:271-279 | Pruning never lowers the base height, which equals the total credit under the invariant. |
| `Sim.HandleKeepsInv` | minesim.go:281-335 | Handling any pending event keeps the invariant. Every tip stays valid, every block's miner exists, and every miner keeps a pending mining event for its tip. The tip map stays equal to the tally of the tips. Credit is non-negative and, with the miner's retained blocks, at most its mined count. Total credit equals the base height, and the deepest reorg stays non-negative. |
| `Sim.MinersMoved` | minesim.go:294-335 | Moving one miner keeps the tip map equal to the tally of the tips, keeps total credit, and keeps peers valid. |
| `Sim.NewEventsAddressed` | minesim.go:334-335 | After relay and startMining every event is addressed to an existing miner, and every miner still has a pending mining event for its tip. |
| `Sim.TipsCountMiners` | minesim.go:129-161 | Under the invariant the tip map's keys are exactly the miners' tips. No count is zero, each count is the number of miners on that block, and the counts sum to the number of miners. |
| `Sim.QueueNonEmpty` | minesim.go:281 | Under the invariant the queue is never empty, so the pop is always defined. |
| `Sim.HandleKeepsClock` | minesim.go:282 | With non-negative delays and solve time, handling an earliest event never moves the clock backwards, and no pending event is due before the new time. |
| `Sim.ForkSwitch` | minesim.go:304-335 | A concrete one-block fork handled by the engine: a miner on the losing sibling that receives the higher block on the other branch switches to it. The deepest reorg becomes 1, the arena is unchanged, the tip map then counts both miners on the new block, and the miner gets a new mining event on it. |
| `Sim.ReissuedId` | minesim.go:267-308 | From a state meeting the invariant: pruning to the common tip drops an orphan with a higher id, and the next block mined receives that id again, as a different block. Once the orphan's miner switches to the new block, its old mining attempt on the orphan, which was discarded before the prune, is no longer discarded. The miner then has two live mining events on the same id, and the invariant still holds. |
| `MainLoop.Simulate` | minesim.go:266-336 | Over any number of repetitions the invariant holds and the miner set is fixed. The deepest reorg and total credit never decrease. No miner's credit or mined count ever decreases, and every miner's credit stays between 0 and its mined count. With non-negative delays and solve times the clock never runs backwards. |

## Left out

- Flag parsing and the topology-file parser (minesim.go:94-98 and 177-257), with
  their error exits. The model starts from already-resolved peer lists, given
  as miner indices and delays, and requires every peer index to name a miner.
- The random solve-time draw in startMining (minesim.go:164-165). The solve
  time is a parameter. Hashrate, total hashrate and the block interval only
  feed that draw and are left out too.
- Miner name and index fields, the trace function, and the statistics printed
  after the loop (minesim.go:337-373). They are output only. The division by a
  zero mined count in the per-miner stale percentage is in that printing and
  is not modelled.
- Heap internals (`Len`, `Less`, `Swap`, `Push`, `Pop`, minesim.go:114-127).
  The queue is a multiset with an earliest-first pop that is nondeterministic
  among equal times.
- The Python helper scripts blockint.py and blockint-count.py. They stand
  alone: each reads a count `n` and an average from its arguments and prints
  `n` random block intervals. blockint.py draws them from an exponential
  distribution; blockint-count.py counts trials until a random draw hits zero.
  Neither is part of the simulator.
- Fixed-width integers and floating point. Ids, heights and counters are
  unbounded, and times are exact reals, so float rounding of `currenttime +
  delay` is not modelled.
- Pruning after the last repetition. The loop prunes only at the top of an
  iteration (minesim.go:267), and nothing prunes or credits after the loop
  ends. Blocks above the last base are therefore never credited, and the
  model does the same.
- Negative link delays and solve times. The code does not check the sign of
  a delay, nor the sign of the `-i` block interval (minesim.go:95), which
  scales every drawn solve time (minesim.go:164-165). The clock results
  (`Sim.HandleKeepsClock`, `MainLoop.Simulate`) are therefore stated only
  under the hypothesis that every delay and solve time is non-negative.

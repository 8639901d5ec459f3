# bitcoin-rs chain core, modelled in Dafny

This project models the part of the bitcoin-rs node that decides which chain it follows, and proves what that
part keeps over every run:

- **the block tree**: headers linked by parent index, tip election by accumulated work, subtree invalidation, and
  an active-height index that answers ancestor questions without walking;
- **header admission**: the compact-target codec, block work, retargeting, the contextual checks, and batches;
- **BIP 9 deployment queries**: states per period, the per-anchor cache and the search for the period a state began;
- **the cancellation latch**: one-way trigger, hooks, guards and parent/child propagation, under every interleaving;
- **AssumeUTXO background validation**: a durable record, a pending-block intent, checkpoints, crashes and replay;
- **chain transaction counts** across connects and disconnects.

`dafny verify dfyconfig.toml` checks everything.

## How it is organised

- `Wrappers`, `Bounded`: optional and fallible values, machine integer ranges, powers of 256.
- `Compact`, `Work`: the compact-target codec; retargeting, permitted transitions and block work.
- `Chain`: the plain parent walk (`Path`, `AncestorAt`, `CommonAncestor`), which is the reference everything fast is
  compared with. `TreeModel`: the tree as a value, its invariant and its runs. `BlockTree`: the class that updates
  nodes, hash table, index, tip and cache in place; every method is proved equal to a function of `TreeModel` or `Chain`.
- `MedianTime`, `Locator`, `Subtrees`, `Replay`, `Reorg`: median time past, locators, invalidation marks, rebuilding
  a tree from its saved nodes, reorganisation plans.
- `Admission` (what one header and one batch do), `HeaderSync` (the methods that do it), `AdmissionLaws`,
  `DifficultyLaws`, `Demotion`, `ChainRuns` and `FastChains` (what holds of every header, batch and run). `StatusLaws`:
  which nodes are Active.
- `VersionBits`, `ActivationLaws`, `Deployments`: BIP 9 states as a recursion over periods; what they mean for the
  chain's history; the cached queries.
- `ChainTxCount`, `CountLaws`: transaction counts.
- `Latch`: the latch as a transition system whose steps are its lock-protected sections. `LatchProgress`: it never
  gets stuck.
- `AssumeUtxo` (the pieces between which a process can stop), `AssumeUtxoLaws`, `AssumeUtxoProgress`,
  `AssumeUtxoRecovery` (what every run keeps), `AssumeUtxoManager` (the class whose methods are made of those pieces).

## What the proofs found

- **Invalidation never demotes.** The branch of `invalidate_subtree` that marks the old tip Stale and reports it as
  demoted is only reachable when the tip is not the best node; in every reachable tree it is, so the reported demoted
  tip is always absent (`TreeModel.TipSurvives`, `TreeModel.InvalidateKeepsInv`).
- **A returned trigger does not always mean that every descendant is triggered.** If a child's own trigger has won but
  its deferred function has not been called, the parent's deferred function returns while the grandchild still waits.
  Two runs show it: one in which the parent runs the child's hook and finds the child triggered
  (`Latch.GrandchildCanBeMissed`), and one in which the child has released its guard first
  (`Latch.ReleasedGrandchildCanBeMissed`). All live descendants along a line are triggered exactly when no hook of the
  line is still queued for a waiting child (`Latch.DescendantsTriggeredIff`). Live direct children always are
  (`Latch.ChildrenTriggered`).
- **Difficulty transitions need a timespan divisible by 4, or below 4.** Every retarget is permitted exactly under that
  condition (`DifficultyLaws.RetargetsPermittedIff`). Where it fails, and a window can pass at one block a second
  without leaving the clamp's quarter, `accept_headers` admits a header that the transition test refuses
  (`FastChains.RunsPermittedIff`). Every network the node knows satisfies the condition
  (`ChainRuns.KnownNetworksArePermitted`).
- **A node can be Active without being the tip.** The header of a connected block that was not known yet is inserted as
  Active; when it does not beat the tip it stays so (`StatusLaws.SideBlockStaysActive`). One insertion keeps the tip the
  only Active node exactly when it is not inserted as Active, its parent is Invalid, or its work beats the tip's
  (`StatusLaws.InsertKeepsActiveIff`). The tip itself is always Active (`StatusLaws.EveryRunActivatesTheTip`).
- **Two defensive branches are dead.** The consistency test of a trusted index never fails
  (`BlockTrees.BlockTree.IndexIsConsistent`), and a disconnect never turns a known transaction count unknown
  (`CountLaws.RewindNeverForgets`).
- **An established count of zero does not survive the wire form**; every other count does (`CountLaws.WireRoundTrip`).
- **Replaying a saved tree needs no work below the tip.** Every insertion succeeds whatever the headers weigh, and the
  same tip is elected exactly when the tip's own block adds work or is the root (`Replay.ReplayRestoresTip`). An elected
  tip always does (`Replay.EveryRunRestoresItsTip`), and so does every admitted header
  (`ChainRuns.EveryGrownTipIsRestored`).
- **A genuine AssumeUTXO chain is failed by fatal storage errors only.** A run over a genuine chain ends Failed exactly
  when a fatal error met a begun block (`AssumeUtxoLaws.GenuineRunFailsIff`). The historical chainstate has only
  in-memory stores (crates/chainstate/src/lib.rs:742-777).

## Model

| member | source | states |
|---|---|---|
| Compact.EncodeFields | crates/chain/src/header_sync.rs:463-487 | the exponent is the byte length of twice the target and the mantissa its leading three bytes at that length, for every positive 256-bit target |
| Compact.RoundTrip | crates/chain/src/header_sync.rs:447-487 | decode after encode rounds down to a multiple of the last kept byte's unit, so the error is below one unit; the sign bit is never set and the encoding never overflows |
| Compact.RoundTripMonotone | crates/chain/src/header_sync.rs:447-487 | encode-then-decode keeps the order of targets |
| Compact.DecodedIsFixed | crates/chain/src/header_sync.rs:419-487 | every value decoded from non-overflowing bits is a fixed point of encode-then-decode |
| Compact.OverflowsIff | crates/chain/src/header_sync.rs:439-444 | overflow is reported exactly when mantissa * 256^(exponent - 3), computed without bounds, is at least 2^256 |
| Compact.DecodeExact | crates/chain/src/header_sync.rs:419-454 | without overflow, decoding gives the unbounded value, or zero for a negative encoding |
| Compact.DecodedBelowMax | crates/chain/src/header_sync.rs:447-454 | target + 1 always fits 256 bits, for all bits whatsoever, so block work never divides by a wrapped value |
| Work.KnownNetworksAreBounded | crates/primitives/src/network.rs:286-422 | each network the node knows has a timespan divisible by 4 and equal to interval times spacing, does not retarget, or permits every transition |
| Work.RetargetIsExact | crates/chain/src/header_sync.rs:338-364 | the split quotient/remainder computation, with its overflow escape and saturation, encodes min(floor(target * actual / expected), pow limit) computed in unbounded integers |
| Work.IdealTargetBounds | crates/chain/src/header_sync.rs:338-364 | with the actual time between a quarter and four times the expected one, the exact new target lies between the smallest and largest permitted ones |
| Work.BetweenBoundsIsPermitted | crates/chain/src/header_sync.rs:381-407 | any target between the two bounds passes the transition check once encoded, despite the rounding of all three |
| Work.RetargetIsPermitted | crates/chain/src/header_sync.rs:312-407 | every retarget result passes the transition check against the old bits |
| Work.UnchangedIsPermitted | crates/chain/src/header_sync.rs:381-407 | keeping valid bits within the limit is a permitted transition at any height |
| Work.BlockWorkIsExpectedHashes | crates/chain/src/header_sync.rs:372-378 | block work is floor(2^256 / (target + 1)), and zero exactly for a zero or overflowing target |
| Work.BlockWorkAntitone | crates/chain/src/header_sync.rs:372-378 | a harder target never has less work |
| Chain.ChainworkIsPathSum | crates/chain/src/tree.rs:531-559 | a node's chainwork is the exact sum of block work along its path |
| Chain.AncestorWork | crates/chain/src/tree.rs:531-559 | an ancestor has no more work than its descendant, and an invalid ancestor makes the descendant invalid |
| Chain.CommonAncestorIsLowest | crates/chain/src/tree.rs:163-207 | the reference walk returns the lowest common ancestor, or none when there is no common ancestor |
| Chain.MeetUnique | crates/chain/src/tree.rs:163-207 | the lowest common ancestor is unique, so any way of finding one agrees |
| Chain.CommonAncestorExists | crates/chain/src/tree.rs:163-207 | two nodes have a common ancestor exactly when they share a root |
| TreeModel.Best | crates/chain/src/tree.rs:631-681 | the chosen node is the lowest-index node of greatest chainwork that is not Invalid |
| TreeModel.Lookup | crates/chain/src/tree.rs:210-218 | a hash finds a node carrying it, and nothing only when none does |
| TreeModel.InsertKeepsInv | crates/chain/src/tree.rs:520-582 | a placed header becomes the last node, leaves all links and validity unchanged, and the tip elected is again the best |
| TreeModel.TipSurvives | crates/chain/src/tree.rs:584-681 | in a tree whose tip is best, invalidating a subtree never retires the tip, and re-elects the same tip when it lies outside |
| TreeModel.InvalidateKeepsInv | crates/chain/src/tree.rs:584-625 | exactly the subtree becomes Invalid, the tip is the best of the rest, an outside tip is kept, and no demotion is reported |
| TreeModel.CountKeepsInv | crates/chain/src/tree.rs:113-140 | recording a transaction count disturbs neither the structure nor the election |
| TreeModel.ApplyKeepsInv | crates/chain/src/tree.rs:481-681 | every insertion, invalidation and count keeps the invariant and all existing links |
| TreeModel.EveryRunElectsBest | crates/chain/src/tree.rs:731-762 | after any run from the empty tree the tip is the best node, descendants of Invalid nodes are Invalid, and every chainwork is a path sum |
| StatusLaws.InsertKeepsActiveIff | crates/chain/src/tree.rs:731-762 | one insertion keeps the tip the only Active node exactly when it is not inserted as Active, its parent is Invalid, there is no tip, or its work would exceed the tip's |
| StatusLaws.EveryRunActivatesOnlyTheTip | crates/chain/src/tree.rs:584-762 | over every run whose insertions meet that condition on the tree they find, a node is Active exactly when it is the tip |
| StatusLaws.EveryRunActivatesTheTip | crates/chain/src/tree.rs:731-762 | over every run whatever is inserted, the tip is Active |
| StatusLaws.SideBlockStaysActive | crates/chainstate/src/connect.rs:1380-1389 | a header inserted as Active beside a tip of equal work stays Active without being the tip |
| MedianTime.MedianByRank | crates/chain/src/tree.rs:456-479 | the value taken from the sorted window is the median by rank |
| MedianTime.MedianIsUnique | crates/chain/src/tree.rs:456-479 | no other value is a median by rank |
| MedianTime.MedianOfChild | crates/chain/src/tree.rs:456-479 | a child later than its parent's median has no smaller median, also while the window is still filling |
| MedianTime.MedianNeverDecreases | crates/chain/src/tree.rs:456-479 | along any ancestor line of such headers the median never decreases |
| Locator.HeightsDescend | crates/chain/src/tree.rs:280-364 | locator heights strictly descend from the start and end at the root unless the cap is hit |
| Locator.LocatorHeightIs | crates/chain/src/tree.rs:287-364 | the k-th height in closed form: ten single steps below the tip, then distances 9 + 2^(k - 10), never below the root |
| Locator.LocatorIsLogarithmic | crates/chain/src/tree.rs:280-364 | a chain below height 2^k has a locator of at most 12 + k entries |
| Subtrees.MarksReachDescendants | crates/chain/src/tree.rs:631-681 | marks closed under listed children reach every descendant |
| Subtrees.ReplayableByParent | crates/chain/src/tree.rs:693-725 | a node is replayable exactly when its own conditions hold and its parent is on the path or replayable, which is what one index-order pass can decide |
| BlockTrees.LocatorShape | crates/chain/src/tree.rs:280-364 | the hashes named are those of the ancestors at the locator heights; they start at the tip, descend, and reach the root when not capped |
| BlockTrees.SubtreeHashesAre | crates/chain/src/tree.rs:604-613 | the hashes an invalidation reports are exactly those of the subtree |
| BlockTrees.BlockTree.LookupHash | crates/chain/src/tree.rs:210-218 | the hash table answers as a search of all nodes |
| BlockTrees.BlockTree.IndexedCommonAncestor | crates/chain/src/tree.rs:163-207 | with one node on the trusted index, the indexed search gives the lowest common ancestor |
| BlockTrees.BlockTree.WalkedCommonAncestor | crates/chain/src/tree.rs:163-207 | the height-levelling walk gives the lowest common ancestor |
| BlockTrees.BlockTree.FindCommonAncestor | crates/chain/src/tree.rs:163-207 | whichever branch is taken, the answer is that of the plain parent walk; unknown nodes have none |
| BlockTrees.BlockTree.NodeAtHeightFromBounded | crates/chain/src/tree.rs:389-430 | within the budget the answer is the ancestor at that height and exactly the hops above the index are charged; beyond it the lookup fails |
| BlockTrees.BlockTree.NodeAtHeightFrom | crates/chain/src/tree.rs:382-387 | for every start, on or off the active chain, the answer is the plain parent walk's |
| BlockTrees.BlockTree.AncestorChain | crates/chain/src/tree.rs:682-691 | the list is the root-to-node path reversed, or the unknown-node error |
| BlockTrees.BlockTree.IndexIsConsistent | crates/chain/src/tree.rs:319-344 | the consistency test holds at every height of a trusted index |
| BlockTrees.BlockTree.IndexedBlockLocator | crates/chain/src/tree.rs:287-344 | the index answers exactly when it is trusted, the cap is positive and the tip asked for is the published one, and then with the reference locator |
| BlockTrees.BlockTree.WalkParentSteps | crates/chain/src/tree.rs:366-380 | walking a saturated step count lands where the unsaturated one would, at the root at the latest |
| BlockTrees.BlockTree.WalkedBlockLocator | crates/chain/src/tree.rs:346-364 | the parent-walk locator is the reference one despite saturating 64-bit steps |
| BlockTrees.BlockTree.BlockLocator | crates/chain/src/tree.rs:280-285 | by index or by walk, the locator is the same for every tip and cap |
| BlockTrees.BlockTree.MedianTimePastAt | crates/chain/src/tree.rs:456-479 | the sorted window of up to eleven ancestors gives the median time past |
| BlockTrees.BlockTree.RefreshActiveHeightIndex | crates/chain/src/tree.rs:764-810 | extended or rebuilt, the index becomes exactly the path to the new tip and is trusted |
| BlockTrees.BlockTree.PublishTipIfBest | crates/chain/src/tree.rs:731-762 | tip, statuses, index and reported demotion are those of the election |
| BlockTrees.BlockTree.InsertNodeWithHash | crates/chain/src/tree.rs:520-582 | the new tree or the exact error is that of the value-level insertion, and the index stays the path to the tip |
| BlockTrees.BlockTree.InsertHeaderWithHash | crates/chain/src/tree.rs:491-507 | the parent is found by hash, with the missing-parent error otherwise |
| BlockTrees.BlockTree.MarkSubtree | crates/chain/src/tree.rs:631-681 | the worklist marks exactly the root's descendants |
| BlockTrees.BlockTree.BestOutside | crates/chain/src/tree.rs:631-681 | the scan returns the best node of the tree after marking |
| BlockTrees.BlockTree.InvalidateSubtree | crates/chain/src/tree.rs:584-625 | the new tree, the listed hashes, the demotion and the uncached deployment states are those of the invalidation |
| BlockTrees.BlockTree.ReplayableSideNodes | crates/chain/src/tree.rs:693-725 | one pass lists, in index order, exactly the replayable nodes |
| BlockTrees.BlockTree.RecordAppliedTxCount | crates/chain/src/tree.rs:113-130 | only that node's count changes, and a published tip at it is refreshed |
| BlockTrees.BlockTree.RestoreChainTxCount | crates/chain/src/tree.rs:132-140 | only that node's count changes, to the given one |
| Admission.AcceptOneKeeps | crates/chain/src/header_sync.rs:74-118 | an accepted header keeps the invariant and all links; a known one changes nothing |
| Admission.AcceptAllKeeps | crates/chain/src/header_sync.rs:74-118 | a batch, rejected or not, leaves a tree whose tip is best |
| Admission.RejectionKeepsPrefix | crates/chain/src/header_sync.rs:74-118 | a rejected batch leaves exactly what its successful prefix alone would have left |
| AdmissionLaws.RequiredBitsArePermitted | crates/chain/src/header_sync.rs:202-407 | the bits required after a parent, once they can be mined, are a permitted transition from the parent's, with or without BIP 94 |
| AdmissionLaws.WindowKeepsBits | crates/chain/src/header_sync.rs:276-285 | without minimum-difficulty blocks bits stay the same from one retarget height to the next, so the first and last bits of a window agree |
| AdmissionLaws.BatchKeepsTransitions | crates/chain/src/header_sync.rs:74-118 | a batch on any tree keeps every parent/child pair a permitted difficulty transition, when the timespan is divisible by 4 or below 4, retargeting is off, or minimum-difficulty blocks are allowed |
| AdmissionLaws.BatchKeepsTimes | crates/chain/src/header_sync.rs:147-156 | a batch on any tree keeps every header later than the median time past of its parent |
| ChainRuns.EveryRunIsPermitted | crates/chain/src/header_sync.rs:74-118 | after every run of batches, each with its own clock and mode, invalidations and counts, every header is a permitted transition from its parent |
| ChainRuns.KnownNetworksArePermitted | crates/chain/src/header_sync.rs:381-407 | the same on every network the node knows |
| FastChains.RunsPermittedIff | crates/chain/src/header_sync.rs:312-407 | on every network whose windows can pass at one block a second within the clamp, whatever its interval, all runs are permitted exactly when the timespan is divisible by 4 or below 4 |
| ChainRuns.MedianNeverFalls | crates/chain/src/tree.rs:456-479 | after every such run the median time past does not decrease from an ancestor to a descendant |
| ChainRuns.EveryRunHasWork | crates/chain/src/header_sync.rs:245-274 | after every such run each header adds at least one unit of work |
| ChainRuns.EveryGrownTipIsRestored | crates/chain/src/tree.rs:682-725 | saving such a tree for any node as tip and rebuilding it elects that node |
| AdmissionLaws.TipWorkNeverFalls | crates/chain/src/header_sync.rs:74-118 | the tip's work after a batch is at least that before it |
| AdmissionLaws.AddedHasWork | crates/chain/src/header_sync.rs:245-274 | an admitted header always carries at least one unit of work |
| DifficultyLaws.RetargetMeasuresWindow | crates/chain/src/header_sync.rs:312-365 | the new target is the base target (the window's first under BIP 94, else its last) scaled by the clamped time between first and last block |
| DifficultyLaws.SlowerIsNeverHarder | crates/chain/src/header_sync.rs:338-364 | a longer window never gives a harder target |
| DifficultyLaws.OnScheduleKeepsTarget | crates/chain/src/header_sync.rs:338-364 | a window of exactly the expected time leaves the target unchanged |
| DifficultyLaws.RetargetsPermittedIff | crates/chain/src/header_sync.rs:331-407 | every retarget of allowed bits that can be mined is permitted exactly when the expected timespan is divisible by 4 or below 4 |
| DifficultyLaws.WalkFindsNearest | crates/chain/src/header_sync.rs:295-309 | the minimum-difficulty walk answers with the nearest ancestor at a period start, with other bits, or at the root |
| Demotion.DemotionIsRecomputable | crates/chain/src/header_sync.rs:53-118 | for a linked batch the demoted tip reported equals the one recomputed from the resulting tree and the earlier tip |
| Demotion.RejectionReportsPrefix | crates/chain/src/header_sync.rs:61-118 | after a mid-batch rejection that recomputation gives what accepting the successful prefix would have reported |
| HeaderSync.ExpectedNonRetargetBits | crates/chain/src/header_sync.rs:276-310 | the cursor walk finds the last regular bits of the min-difficulty rule |
| HeaderSync.ExpectedRetargetBits | crates/chain/src/header_sync.rs:312-365 | the bits adjust the base by the clamped time between the interval's ends |
| HeaderSync.NextWorkRequired | crates/chain/src/header_sync.rs:202-220 | required bits, or the unknown-node and height-overflow errors |
| HeaderSync.ValidateContextualHeader | crates/chain/src/header_sync.rs:131-194 | the first failing check in order, or none |
| HeaderSync.AcceptHeaders | crates/chain/src/header_sync.rs:74-118 | ids, demoted tip, error and tree are those of the batch, and the index stays valid |
| HeaderSync.DemotedTip | crates/chain/src/header_sync.rs:61-72 | the earlier tip when it still exists and is no longer on the tip's path |
| Reorg.PlanReorg | crates/chain/src/reorg.rs:9-55 | the plan is the old path down to, and the new path up from, the lowest common ancestor; for known nodes it fails only when there is none |
| Reorg.PlanSwitchesPaths | crates/chain/src/reorg.rs:9-45 | disconnecting then connecting turns the old root-to-tip path into the new one, and the two lists share no node |
| Replay.SideMembers | crates/chain/src/tree.rs:693-725 | the pass lists a node exactly when it is off the path, not Invalid, shares the tip's root through replayable parents and has no more work than the tip |
| Replay.ReplayRestoresTip | crates/chain/src/tree.rs:682-745 | inserting any tip's path and then that list into an empty tree never misses a parent and copies every node; it elects the same tip exactly when the tip's own block adds work or is the root |
| Replay.EveryRunRestoresItsTip | crates/chain/src/tree.rs:682-745 | so the elected tip of every reachable tree is restored |
| VersionBits.RankIdentifies | crates/consensus/src/bip9.rs:22-42 | cache tags identify states and read back |
| VersionBits.HistoryNeverReturns | crates/consensus/src/bip9.rs:121-179 | a deployment that leaves a state never returns to it, at any later period |
| VersionBits.SinceSeparates | crates/chain/src/deployment.rs:257-270 | a period has the current state exactly when it is not before the first period of that state, which is what bisection needs |
| VersionBits.StateOfAncestor | crates/consensus/src/bip9.rs:108-179 | a period's state depends only on the blocks before it, so any node of the chain that covers them gives the same state |
| ActivationLaws.ActiveIff | crates/consensus/src/bip9.rs:121-179 | a deployment is active exactly when some period at least two before was signalled that way |
| ActivationLaws.UndecidedIsInTime | crates/consensus/src/bip9.rs:121-179 | while undecided it never timed out, and it is started exactly when the start time has been reached at some period end |
| Deployments.CachedIsUncached | crates/chain/src/deployment.rs:346-371 | with a sound cache the answer is the uncached state, and the entry written keeps the cache sound |
| Deployments.CacheSurvives | crates/chain/src/tree.rs:18-38 | growing the tree and dropping entries keep the cache sound |
| Deployments.EveryRunAnswersUncached | crates/chain/src/deployment.rs:346-371 | after any run of insertions, invalidations and queries, every cached answer is the uncached one |
| Deployments.ForQuery | crates/chain/src/deployment.rs:27-60 | a view answers through the index when its tip is on the active chain and through a stored path otherwise, within the budget |
| Deployments.NodeAtHeight | crates/chain/src/deployment.rs:62-71 | both kinds of view agree with the parent walk |
| Deployments.CachedDeploymentState | crates/chain/src/deployment.rs:346-371 | the answer and the cache entry written, for anchors present and absent |
| Deployments.QueryState | crates/chain/src/deployment.rs:346-371 | with a sound cache a query returns the uncached state and leaves the cache sound |
| Deployments.FindSince | crates/chain/src/deployment.rs:257-270 | the bisection returns the same period as a linear scan back from the current one |
| Deployments.DeploymentStatus | crates/chain/src/deployment.rs:194-296 | state, next state and starting height of one deployment |
| CountLaws.WireRoundTrip | crates/chain/src/count.rs:13-26 | counts survive the wire form exactly when they are not an established zero; every raw value survives the way back |
| CountLaws.RecordedIsExact | crates/chain/src/tree.rs:113-130 | the recorded count is exact, and known exactly when the parent's is known (or there is none) and the sum fits 64 bits |
| CountLaws.EveryRunCountsExactly | crates/chainstate/src/disconnect.rs:93-109 | after any run of insertions, invalidations, connects and disconnects, every known count is the exact number of transactions on its path |
| CountLaws.DisconnectKeepsKnown | crates/chainstate/src/disconnect.rs:99-109 | after any run, the applied count is known after a disconnect exactly when it was known before |
| CountLaws.RewindNeverForgets | crates/chainstate/src/disconnect.rs:99-106 | after any run, disconnecting the applied tip leaves a known count known |
| Latch.DoKeepsInv | crates/chain/src/latch.rs:39-100 | every step of any thread keeps the latch invariant |
| Latch.LaterIsKept | crates/chain/src/latch.rs:39-60 | nothing a run has triggered, run or dropped is ever undone later |
| Latch.EveryRunIsSafe | crates/chain/src/latch.rs:39-69 | in every interleaving each hook runs at most once, and triggered, woken and hooks-taken hold together |
| Latch.DroppedBeforeTriggerNeverRuns | crates/chain/src/latch.rs:240-248 | a hook whose guard was dropped before the trigger never runs |
| Latch.FinishedRanEverything | crates/chain/src/latch.rs:39-60 | once the winning deferred function has returned, every hook whose guard was not dropped has run once |
| Latch.ChildrenTriggered | crates/chain/src/latch.rs:197-210 | once it has returned, every live child is triggered, also one that was triggered on its own and released its guard |
| Latch.DescendantsTriggeredIff | crates/chain/src/latch.rs:197-210 | all live descendants along a line are triggered exactly when no hook of the line is queued, in a deferred function under way, for an untriggered child |
| Latch.DescendantsTriggered | crates/chain/src/latch.rs:197-210 | so they are when no latch of the line is still running its deferred function |
| Latch.GrandchildCanBeMissed | crates/chain/src/latch.rs:39-60 | a run in which the child is triggered by another thread first and the grandchild is still untriggered when the top latch's deferred function has returned |
| Latch.ReleasedGrandchildCanBeMissed | crates/chain/src/latch.rs:39-69 | a run with the same end in which the child released its guard, so that the top latch never ran its hook |
| LatchProgress.NeverStuck | crates/chain/src/latch.rs:39-60 | in every reachable state with a deferred function under way, some deferred function can take its next step |
| LatchProgress.EveryRunCanFinish | crates/chain/src/latch.rs:39-60 | every run can be continued until all deferred functions under way have ended |
| AssumeUtxoLaws.DoKeeps | crates/chainstate/src/assumeutxo.rs:681-1175 | every piece of installing, stepping, publishing, committing, closing, crashing, opening and replaying keeps the invariant when steps are fed the named block |
| AssumeUtxoLaws.EveryRunHoldsTheFold | crates/chainstate/src/assumeutxo.rs:700-749 | in every run the contents at a height are the pinned blocks up to it connected in order, only a genuine chain is finalized, and the node is never reported validated before that |
| AssumeUtxoLaws.EveryRecordIsOrdered | crates/chainstate/src/assumeutxo.rs:751-800 | every Validating record has checkpoint <= progress < base, and a pending block above the checkpoint and at most one above progress, all on the pinned ancestry |
| AssumeUtxoLaws.TerminalRecordsStay | crates/chainstate/src/assumeutxo.rs:1016-1036 | Finalized and Failed are never left, whatever happens and whatever is fed |
| AssumeUtxoLaws.EveryVerdictIsTheChains | crates/chainstate/src/assumeutxo.rs:802-856 | without a fatal storage error, Finalized means the pinned chain connects with the pinned count and commitment, and Failed means it does not |
| AssumeUtxoLaws.GenuineFailsIff | crates/chainstate/src/assumeutxo.rs:725-748 | on a genuine chain one event fails the record exactly when it is a fatal storage error on a begun block under a Validating record |
| AssumeUtxoLaws.GenuineRunFailsIff | crates/chainstate/src/assumeutxo.rs:725-748 | a run over a genuine chain ends Failed exactly when such an error occurred in it |
| AssumeUtxoProgress.ProgressNeverFalls | crates/chainstate/src/assumeutxo.rs:1055-1065 | between any two moments of any run the certified height does not fall |
| AssumeUtxoProgress.EveryRunKeepsItsRows | crates/chainstate/src/lib.rs:243-255 | pruning is refused during validation, so in every run the undo row of each connected block is there |
| AssumeUtxoProgress.StepLowersIff | crates/chainstate/src/assumeutxo.rs:1055-1105 | what a damaged store would do: given any rows on disk, a step lowers the certified height exactly when its block is below it and the undo row is missing |
| AssumeUtxoRecovery.OpensIff | crates/chainstate/src/assumeutxo.rs:368-545 | a record the node wrote opens exactly when it is not Failed and the checkpoint it names, if any, has a known transaction count; the opened process can take its next step |
| AssumeUtxoRecovery.ReplayReachesIntent | crates/chainstate/src/assumeutxo.rs:1125-1156 | recovery finds every body, reconnects every block below the pending one and changes no record |
| AssumeUtxoRecovery.StepAdvancesOrDecides | crates/chainstate/src/assumeutxo.rs:681-856 | an undisturbed step connects one more block, or ends in the verdict the chain deserves |
| AssumeUtxoRecovery.SteppingDecides | crates/chainstate/src/assumeutxo.rs:892-921 | stepping through the remaining blocks always ends in that verdict |
| AssumeUtxoRecovery.CrashesDoNotChangeTheVerdict | crates/chainstate/src/assumeutxo.rs:368-441 | without fatal storage errors, stop any run anywhere with a known checkpoint count, reopen and carry on: the record ends Finalized when the pinned chain is genuine and Failed when it is not |
| AssumeUtxoRecovery.RecoveryIsShort | crates/chainstate/src/assumeutxo.rs:1296-1354 | wherever a run stops, reopening reconnects at most one checkpoint interval of blocks before the pending one |
| AssumeUtxoManagers.RecoveryIsNotRefused | crates/chainstate/src/assumeutxo.rs:1108-1175 | once such a record is opened, none of the refusals of recovery applies to it |
| AssumeUtxoManagers.RecoveredKeeps | crates/chainstate/src/assumeutxo.rs:1108-1175 | recovery, refused or not, keeps the invariant: the staged body it steps with is the named block |
| AssumeUtxoManagers.AssumeUtxoManager.InstallVerified | crates/chainstate/src/assumeutxo.rs:574-675 | succeeds exactly for a snapshot with the pinned height, hash and commitment on an open node never activated and not under revalidation, whose base header is valid, at that height, on the best chain and heavier than a settled applied tip; writes the first Validating record, and an unsettled tip closes the node; the invariant is kept |
| AssumeUtxoManagers.AssumeUtxoManager.FailHistorical | crates/chainstate/src/assumeutxo.rs:1016-1036 | the process closes and a Validating record becomes Failed with the commitment found |
| AssumeUtxoManagers.AssumeUtxoManager.BeginHistorical | crates/chainstate/src/assumeutxo.rs:1038-1106 | an archived block is recognised, a pending one kept, and any other staged and made pending |
| AssumeUtxoManagers.AssumeUtxoManager.ConnectHistoricalBlock | crates/chainstate/src/assumeutxo.rs:700-749 | the block is connected in memory, or the exact error is returned and the record fails when it must |
| AssumeUtxoManagers.AssumeUtxoManager.FinalizeHistoricalProgress | crates/chainstate/src/assumeutxo.rs:802-856 | hash, count and commitment are compared in that order; all equal finalizes and frees the historical chainstate |
| AssumeUtxoManagers.AssumeUtxoManager.MaybePublishCheckpoint | crates/chainstate/src/assumeutxo.rs:1296-1354 | a checkpoint of the connected tip is published exactly when the interval since the last has passed |
| AssumeUtxoManagers.AssumeUtxoManager.RecordHistoricalProgress | crates/chainstate/src/assumeutxo.rs:751-800 | progress with its undo and body rows below the base, the verdict at it |
| AssumeUtxoManagers.AssumeUtxoManager.StepHistorical | crates/chainstate/src/assumeutxo.rs:681-698 | a step is the run of its pieces, and returns exactly the outcome those give |
| AssumeUtxoManagers.AssumeUtxoManager.NextHistoricalBlock | crates/chainstate/src/assumeutxo.rs:858-890 | an error exactly when closed, none exactly when there is no history or it is past the base, otherwise the pinned block above the historical tip |
| AssumeUtxoManagers.AssumeUtxoManager.AdvanceHistorical | crates/chainstate/src/assumeutxo.rs:892-921 | at most eight named steps are taken, the invariant is kept, and the answer is true: Complete means the record is no longer Validating, otherwise one body is missing or more blocks remain |
| AssumeUtxoManagers.AssumeUtxoManager.RecoverPending | crates/chainstate/src/assumeutxo.rs:1108-1175 | the backlog is reconnected and the pending block stepped, or the exact refusal returned with the obstacle that stopped the backlog |
| AssumeUtxoManagers.AssumeUtxoManager.OpenHistoricalChainstate | crates/chainstate/src/assumeutxo.rs:443-545 | the checkpoint's contents or empty ones, or the first refusal in order |
| AssumeUtxoManagers.AssumeUtxoManager.Open | crates/chainstate/src/assumeutxo.rs:335-441 | opening restores and recovers, or leaves the process down, and keeps the invariant; on the node's own records with a known checkpoint count only a failing pending step can stop it |

## Left out

- Hash functions: a header or block carries its hash as a field. Nothing assumes that hashes are injective, except
  `Demotion.HashesIdentify`, which the demotion laws state as a premise, and AssumeUTXO bodies, where a stored body
  with a pinned block's hash is taken to be that block.
- Slab indices above 32 bits: node ids are unbounded; height overflow is modelled.
- Branches guarding against corrupted trees (parent cycles, heights that disagree with links, incomplete ancestry):
  they cannot be taken by trees these operations build. `node_mut` and the other test seams build such trees on purpose.
- Concurrency around the block tree: its methods run under a lock and are modelled as sequential.
- `leaf_node_ids`, `tip_after_invalidation`, `active_height_of`, `median_time_past_before_height`: they would only add
  easy members.
- Deployments with a period of zero: the queries divide by the period, so it is taken to be positive.
- `deployment_statuses`: the report per deployment is modelled; assembling the list and the signalling vector is not,
  and neither are `candidate_version` and the BIP 30 scan.
- Latch.FinishedRanEverything: a deferred function that is dropped without being called is not modelled.
- AssumeUTXO contents: a chainstate's coins, statistics and transaction count are one value that `connect` changes; an
  invalid block is one `connect` refuses. Script, signature and coin checks are not modelled.
- AssumeUTXO storage: a commit is one atomic step; any failing read or write appears as closing the process (`Abort`) or
  as a retryable or fatal connect fault. Directories, files, digests and locks are not modelled.
- AssumeUTXO checkpoint retirement: unreferenced generations may disappear at any moment between steps, not at the
  exact calls that clean them up; generations are numbered in publication order.
- AssumeUTXO activation: what the active chainstate and the header tree hold is a parameter; writing the snapshot's
  coins and headers is not modelled.
- FastChains.RunsPermittedIff: networks whose window cannot pass at one block a second within a quarter of its timespan
  (a spacing below 4 seconds), or whose limit is below 2^35, are covered by the law for one retarget only, because the
  median-time rule limits how fast their first window can be.
- Headers inserted by connecting a block: `TreeModel` and `StatusLaws` cover them; the difficulty and time laws of
  `ChainRuns` speak of headers admitted by `accept_headers`.
- Blocks fed to `step_historical` other than the named one: the methods handle them, but the AssumeUTXO run laws speak
  of runs that feed the named block, as `advance_historical` does.
- Attestation levels, block and undo file positions, the active chainstate's own durable head, and the reports:
  they do not influence validation.
- Initial-block-download detection, verification progress, peer handling, storage engines, RPC, the mempool and
  script execution are not part of this model.

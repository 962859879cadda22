# Models of the repository's algorithms

This project models the algorithmic core of the repository in Dafny and proves what
the code is relied on for. `dafny verify dfyconfig.toml` checks all of it.

* **CIDR aggregation** (`Prefixes`, `CidrMerge`, `CidrTrie`, `CidrAggregate`, `CidrBlocks`,
  `CidrText`, `CidrResults`). The trie is a heap of linked nodes with parent pointers that
  the methods change in place; a ghost map from paths to nodes and one from marked paths to
  labels abstract it. The sorted worklist is shown to mirror the trie at every loop head, the
  loop to refine a merging step on sets of disjoint blocks, and that step to compute a
  truncation of the prefixes: cut to one length, one bit shorter from a pivot on. It is the
  finest such truncation that fits the budget.
* **Cluster packing** (`RunnerDemand`, `ClusterSim`, `ClusterPacking`, `ClusterBound`,
  `ClusterProgram`). The simulation is a transition system in which each draw is any of the
  remaining names. The loop, with its mutable nodes, is shown to produce runs of that system,
  and every run conserves usage, crowds nodes of one type, terminates, and stays within a
  packing bound.
* **Node packing analysis** (`Combinations`, `NodePacking`, `NodeSlack`). The enumeration of
  index tuples is tied to multisets of runners: complete, without repetition, and filtered to
  the inclusion-maximal ones. The floor-division shortcut is compared with it exactly.
* **Failure watcher** (`Watcher`, `WatchRuns`, `LogSlice`). `process_one` and `main` as a
  protocol over a memory table, a state file written through a temporary file and two logs, with
  exceptions and crashes before, between and in the middle of the writes; and the slicer that
  merges line windows.
* **Smaller cores** (`ConditionalBlocks`, `TokenCache`, `GpuHours`, `NameGenerator`).

`Options`, `Sequences`, `Arithmetic` and `Texts` hold what several parts share.

## Where the code does not do what one would expect

* `get_cidrs` with `n = 1` and blocks in both halves of the address space returns
  `0.0.0.0/1`: the root is labelled `'0'`, the label of the lower half, and the deletion by
  key takes the root's own entry out again. `CidrResults.NoAddressLostIff` says exactly when
  no address is lost, `CidrBlocks.TurnBoth` shows the turn. For `n <= 0` the loop raises or
  returns nothing; `CidrBlocks.Aggregate` covers these budgets as well.
* `find_valid_combos` stops at twenty pods. When more than twenty of a single type fit, no
  combination it lists is maximal and `compute_node_slack` returns None, while the
  floor-division branch returns numbers (`NodeSlack.ShortcutUpToTwenty`). With negative GPUs
  to allocate and no GPU demanded the two differ as well (`NodeSlack.ShortcutIff`).
* `run_simulation` fills a new node without asking whether the runner fits, so a node can be
  overfull. `ClusterPacking.OverflowIff` says for which configurations a run can get there:
  exactly when something may be deployed and a runner with a positive target does not fit a
  fresh node of its type.
* A state file that is damaged from outside, or cannot be read, makes the watcher start with
  an empty table and log its jobs again; a later restart that can read it finds them again. The
  exact count is `WatchRuns.EntriesExactly`. Crashes of the watcher alone never do this
  (`WatchRuns.RunRestores`).
* Two Kubernetes clients share one token cache but hold their own keys. The hook of one can
  return early because the other refreshed the cache, and then it sends an expired key
  (`TokenCache.ExpiredIff`, `TokenCache.OtherClientExpires`).
* Stripping the blocks of two tags in the other order can give another text, but only when both
  are dropped: with one of them kept the order never matters
  (`ConditionalBlocks.KeptPassesCommute`). With both dropped it can matter for texts with given
  markers exactly when the two orders decide differently at some plain line
  (`ConditionalBlocks.CommuteIff`), which takes blocks that cross or are not well formed;
  `ConditionalBlocks.CrossingMatters` is an example.
* A second pass of `sanitize_name` removes the hyphens of the first
  (`NameGenerator.SanitizedAgain`); `NameGenerator.SanitizedOnceIff` says for which names that
  makes a difference.

## Model

| member | source | states |
|---|---|---|
| Prefixes.LexIff | scripts/simplify_cidr_blocks.py:58 | bit strings of one length are ordered by the first place where they differ, 0 before 1 |
| CidrMerge.StepShape | scripts/simplify_cidr_blocks.py:60-78 | a merging turn keeps the blocks disjoint, shrinks the list by one exactly when the sibling of the longest block is there and otherwise by none, and always lowers the sum of prefix lengths: the termination measure |
| CidrMerge.StepCovers | scripts/simplify_cidr_blocks.py:60-78 | a merging turn leaves every block covered |
| CidrMerge.StepPrefixes | scripts/simplify_cidr_blocks.py:60-78 | a merging turn yields only prefixes of blocks it had |
| CidrMerge.MergeCount | scripts/simplify_cidr_blocks.py:60 | merging ends with exactly n blocks, or with all of them when there were no more than n |
| CidrMerge.MergeCovers | scripts/simplify_cidr_blocks.py:60-78 | for every n >= 1 the merged blocks cover all that went in |
| CidrMerge.MergePrefixes | scripts/simplify_cidr_blocks.py:60-78 | every merged block is a prefix of a given one |
| CidrMerge.MergeContinues | scripts/simplify_cidr_blocks.py:60-78 | merging to m is merging to n and then on to m, for m <= n |
| CidrMerge.MergeMonotone | scripts/simplify_cidr_blocks.py:60-78 | the result for m covers the result for n, for m <= n |
| CidrMerge.CutNext | scripts/simplify_cidr_blocks.py:60-78 | one turn takes a truncation at level L and pivot to the truncation at the longest length and the parent of the longest block |
| CidrMerge.MergeIsTruncation | scripts/simplify_cidr_blocks.py:45-81 | refinement of the simple specification: the result is the inclusion-maximal blocks of the input cut to one length L, or to L-1 from some pivot on |
| CidrMerge.MergeIsFinest | scripts/simplify_cidr_blocks.py:45-81 | optimality: every level-and-pivot truncation with at most n blocks covers the result |
| CidrTrie.Trie.constructor | scripts/simplify_cidr_blocks.py:46 | an empty root, with no block marked |
| CidrTrie.Trie.Grow | scripts/simplify_cidr_blocks.py:50-53 | a missing child is made and linked both ways; nothing else in the trie changes |
| CidrTrie.Trie.Descend | scripts/simplify_cidr_blocks.py:49-54 | the walk moves to the node one bit further down, made only if missing |
| CidrTrie.Trie.Mark | scripts/simplify_cidr_blocks.py:55 | one label is written, all others and all paths stay |
| CidrTrie.Trie.Insert | scripts/simplify_cidr_blocks.py:48-55 | inserting a block marks exactly its path with itself, keeps every path there was and adds only prefixes of it |
| CidrTrie.Trie.Label | scripts/simplify_cidr_blocks.py:20-27 | the label read off the parent links is the node's path, except that the root gets '0' |
| CidrTrie.Trie.Detach | scripts/simplify_cidr_blocks.py:63 | deleting a child removes its path and all paths below it, with their marks, and nothing else |
| CidrTrie.Trie.Leafs | scripts/simplify_cidr_blocks.py:30-42 | the explicit stack yields the first marked node on every path, in depth-first order with the '1' side first, and ends |
| CidrTrie.DfsFindsLeafs | scripts/simplify_cidr_blocks.py:30-42 | that order lists each inclusion-maximal marked path below a node exactly once |
| CidrAggregate.BisectRight | scripts/simplify_cidr_blocks.py:77 | position after all keys not above the given one and before all above it |
| CidrAggregate.Insort | scripts/simplify_cidr_blocks.py:68 | the new entry stands after every entry whose key is not above its own and before the others, and nothing else moves |
| CidrAggregate.InsortSorted | scripts/simplify_cidr_blocks.py:68 | insertion keeps the worklist sorted by (length, bits) |
| CidrAggregate.InsortStrict | scripts/simplify_cidr_blocks.py:68 | and strictly sorted when the key is new |
| CidrAggregate.SortByKey | scripts/simplify_cidr_blocks.py:58 | sorting gives a sorted permutation |
| CidrAggregate.SortStable | scripts/simplify_cidr_blocks.py:58 | entries with one key keep their order through the sort |
| CidrAggregate.DeleteKeyExact | scripts/simplify_cidr_blocks.py:77-78 | on distinct keys the bisect_right - 1 deletion removes the entry with that key and no other |
| CidrAggregate.RemoveLast | scripts/simplify_cidr_blocks.py:61-68 | pop, unlink and mark the parent: the trie loses the popped subtree, the parent is marked and inserted only if it had no label |
| CidrAggregate.LeafsBelow | scripts/simplify_cidr_blocks.py:70-74 | the leafs left on both sides of the parent, '0' side first |
| CidrAggregate.DropLeafs | scripts/simplify_cidr_blocks.py:76-78 | all listed leafs are deleted in turn, or the deletion from an empty list raises |
| CidrAggregate.Turn | scripts/simplify_cidr_blocks.py:61-78 | one loop body on trie and worklist, tied to the state before it |
| CidrBlocks.MarksStep | scripts/simplify_cidr_blocks.py:61-78 | popping the longest leaf: its parent never carries a label, and the frontier of marks makes one merging step |
| CidrBlocks.LeafsBeside | scripts/simplify_cidr_blocks.py:70-74 | below the parent the only leaf left is the sibling, if the sibling is itself a leaf |
| CidrBlocks.SideLeafsAfter | scripts/simplify_cidr_blocks.py:70-74 | so the leafs found are the sibling alone or none, in whichever order the sides are searched |
| CidrBlocks.TurnLeafs | scripts/simplify_cidr_blocks.py:70-74 | the leafs a turn collects are the entry of the sibling, or none |
| CidrBlocks.TurnResultIs | scripts/simplify_cidr_blocks.py:61-78 | on paths labelled by themselves a turn inserts the parent and deletes at most the sibling |
| CidrBlocks.TurnSynced | scripts/simplify_cidr_blocks.py:60-78 | worklist agrees with trie: from a strictly sorted list of exactly the trie leafs, a turn on a block of two or more bits leads to such a list again, one merging step on |
| CidrBlocks.SyncedInitially | scripts/simplify_cidr_blocks.py:57-58 | the sorted leafs of the built trie are in step with it |
| CidrBlocks.TurnBoth | scripts/simplify_cidr_blocks.py:25-26 | with '0' and '1' listed, the root comes in as a second '0' and the deletion takes it out again: the upper half is lost |
| CidrBlocks.SecondZeroDeleted | scripts/simplify_cidr_blocks.py:77-78 | of two entries with key '0' the bisect deletion removes the later one |
| CidrBlocks.TurnSingle | scripts/simplify_cidr_blocks.py:25-26 | with one half listed the turn leaves the root, labelled '0' |
| CidrBlocks.TurnHalved | scripts/simplify_cidr_blocks.py:60-78 | a further turn for n = 0 empties the list |
| CidrBlocks.PhaseTurn | scripts/simplify_cidr_blocks.py:60-78 | every turn of the loop for every n, including zero and negative ones, goes from one characterised state to the next |
| CidrBlocks.PhaseDone | scripts/simplify_cidr_blocks.py:60 | what is listed when the loop stops is the specified result |
| CidrBlocks.PhaseRaises | scripts/simplify_cidr_blocks.py:61-62 | popping from an empty list and popping the root raise exactly where the specification says |
| CidrBlocks.Build | scripts/simplify_cidr_blocks.py:46-55 | the trie marks exactly the given blocks, each with itself |
| CidrBlocks.Round | scripts/simplify_cidr_blocks.py:60-78 | one turn in place: a specified error, or the next characterised state with fewer nodes in the trie |
| CidrBlocks.Aggregate | scripts/simplify_cidr_blocks.py:45-78 | for every list of blocks and every integer n the loop ends with the specified outcome: merged blocks, one half block, KeyError or IndexError |
| CidrText.ReadOctets | scripts/simplify_cidr_blocks.py:12-15 | the bits of all octets in order, or None exactly when one is not a number |
| CidrText.IpToBinary | scripts/simplify_cidr_blocks.py:8-17 | reads every block, or raises exactly when one of them cannot be read |
| CidrText.BinFills | scripts/simplify_cidr_blocks.py:15 | bin and zfill(8) give the eight-bit form of any octet |
| CidrText.FixedValue | scripts/simplify_cidr_blocks.py:81 | reading w bits as a number and writing it on w bits gives the bits back |
| CidrText.LexValue | scripts/simplify_cidr_blocks.py:58 | that order is the order of the numbers the strings write |
| CidrText.ParseDotted | scripts/simplify_cidr_blocks.py:11-16 | four octets below 256 and a length read as their 32 bits cut to that length |
| CidrText.ParsePrint | scripts/simplify_cidr_blocks.py:80-81 | reading a printed block of at most 32 bits gives the block back |
| CidrText.PrintParse | scripts/simplify_cidr_blocks.py:8-17 | printing a well-formed block that was read gives it with its host bits zeroed |
| CidrText.PrintedAddress | scripts/simplify_cidr_blocks.py:80-81 | a block prints as four decimal octets, the first one highest, of its first bits followed by zeros, and its length |
| CidrText.ReadAddress | scripts/simplify_cidr_blocks.py:11-16 | four decimal octets and a length read as the first bits of the address they write |
| Texts.DecimalDigit | scripts/simplify_cidr_blocks.py:81 | each digit prints as itself |
| Texts.DecimalPush | scripts/simplify_cidr_blocks.py:81 | the last digit of a number comes after the digits of the rest |
| Texts.ParseNatIff | scripts/simplify_cidr_blocks.py:15-16 | a string reads as a number if and only if it is not empty and has digits only |
| CidrText.PrintBlocks | scripts/simplify_cidr_blocks.py:80-81 | every block printed, in order |
| CidrText.GetCidrs | scripts/simplify_cidr_blocks.py:45-81 | get_cidrs on text: the specified blocks in order, padded and printed, or the specified error |
| CidrResults.BlocksShape | scripts/simplify_cidr_blocks.py:45-81 | for n >= 1 there are at most n blocks and each is a prefix of a given one |
| CidrResults.NothingLostIff | scripts/simplify_cidr_blocks.py:45-81 | every address of the input is in a result block if and only if n >= 2 or the input lies in one half of the address space |
| CidrResults.NoAddressLostIff | scripts/simplify_cidr_blocks.py:45-81 | the same on the printed text, read back |
| CidrResults.NoTextLostIff | scripts/simplify_cidr_blocks.py:8-81 | the same from the given text to the printed one |
| CidrResults.HalfPrinted | scripts/simplify_cidr_blocks.py:25-26 | for n = 1 and blocks in both halves the printed result is 0.0.0.0/1 alone |
| CidrResults.BlocksOrdered | scripts/simplify_cidr_blocks.py:58 | the blocks are listed by length, and those of one length by the number their bits write |
| CidrResults.BlocksAreTruncation | scripts/simplify_cidr_blocks.py:45-81 | for n >= 2, or n = 1 and one half in use: there are a level L and a number v such that the result is the maximal blocks of the input cut to L bits, or to L-1 where those L-1 bits write v or more; there are n of them, or all the maximal blocks |
| CidrResults.BlocksAreFinest | scripts/simplify_cidr_blocks.py:45-81 | every other such truncation within the budget covers the result |
| CidrResults.FinestIsResult | scripts/simplify_cidr_blocks.py:45-81 | and that determines it: a truncation within the budget that all the others cover is the result |
| CidrResults.SmallerBudgetCovers | scripts/simplify_cidr_blocks.py:45-81 | for m <= n the blocks for m cover the blocks for n, with m >= 2 or one half in use |
| CidrResults.SpecifiedOnce | scripts/simplify_cidr_blocks.py:45-81 | the specification determines the outcome: there is one for each input set and n |
| RunnerDemand.PerRunnerTotal | osdc/scripts/python/analyze_node_utilization.py:183-193 | the demand of a pod is at least the hooks overhead |
| RunnerDemand.RequestIs | osdc/scripts/python/analyze_node_utilization.py:190-192 | a pod takes 1000 milliCPU for each vCPU and 320 more, its memory and 522 MiB more, and its GPUs |
| ClusterSim.BestByNext | osdc/scripts/python/simulate_cluster.py:86-99 | looking at one more node keeps the running best the first of the tightest that fit |
| ClusterSim.ScoreMeasures | osdc/scripts/python/simulate_cluster.py:91-96 | the score of a node is its CPU plus memory left, and with GPUs the share of them left times its whole CPU plus memory |
| ClusterSim.BestIsTightest | osdc/scripts/python/simulate_cluster.py:86-99 | in integers: the best fit has the least left, so measured, of all nodes that take the runner, and less than any before it |
| ClusterSim.BestOfOneSize | osdc/scripts/python/simulate_cluster.py:86-99 | the same written out for nodes of one size |
| ClusterSim.PositiveNames | osdc/scripts/python/simulate_cluster.py:71-73 | the pool holds exactly the names with a positive target, each once |
| ClusterSim.NamesStep | osdc/scripts/python/simulate_cluster.py:169-214 | a turn keeps the drawable names distinct and known, the failed types outside the provisionable ones, and total_deployed within max_deploy |
| ClusterSim.MeasureFalls | osdc/scripts/python/simulate_cluster.py:169-214 | unplaced budget plus drawable names plus types not failed falls on every turn, whatever is drawn |
| ClusterSim.RunLength | osdc/scripts/python/simulate_cluster.py:169-214 | so a run of any sequence of draws makes no more turns than that measure at the start |
| ClusterSim.MaxDeployIs | osdc/scripts/python/simulate_cluster.py:162 | max_deploy is 1.05 times the total target, cut to a whole number towards zero |
| ClusterSim.MapeIs | osdc/scripts/python/simulate_cluster.py:119-125 | the MAPE is the sum of the distances to the targets over the sum of the targets, both added up name by name; zero for no targets |
| ClusterSim.StopsIff | osdc/scripts/python/simulate_cluster.py:171-174 | a run stops on its MAPE if and only if something is deployed and those distances are at most threshold times the targets |
| ClusterSim.WhyHalted | osdc/scripts/python/simulate_cluster.py:169-190 | a run that has stopped is within the threshold, or has deployed max_deploy and no more, or no runner with a positive target can be provisioned |
| ClusterPacking.ConservedDeploy | osdc/scripts/python/simulate_cluster.py:195-214 | placing a runner on an existing or new node keeps the usage of each resource, per type and overall, equal to the demand deployed |
| ClusterPacking.AnyFitGrow | osdc/scripts/python/simulate_cluster.py:196-200 | filling a node keeps every two nodes of a type too full to share one node |
| ClusterPacking.AnyFitOpen | osdc/scripts/python/simulate_cluster.py:201-211 | so does opening a node, because no node of its type took the runner |
| ClusterPacking.RunInv | osdc/scripts/python/simulate_cluster.py:169-214 | conservation, crowding, overflow and name facts hold in every state of every run |
| ClusterPacking.UsageIsDemand | osdc/scripts/python/simulate_cluster.py:195-214 | conservation in every reachable state, written out: usage added up node by node is what the deployed runners take, added up name by name, per type and overall |
| ClusterPacking.OverflowExactly | osdc/scripts/python/simulate_cluster.py:201-211 | in every reachable state some node is overfull if and only if a runner that does not fit a fresh node was deployed, and an overfull node holds one such runner and nothing else |
| ClusterPacking.OverflowIff | osdc/scripts/python/simulate_cluster.py:159-211 | some run of a configuration reaches an overfull node if and only if max_deploy is positive and a runner with a positive target does not fit a fresh node of its type |
| ClusterPacking.MapeStop | osdc/scripts/python/simulate_cluster.py:119-125 | a stop on MAPE leaves the number deployed within threshold times the total target of that total, which is positive |
| ClusterBound.PartIs | osdc/scripts/python/simulate_cluster.py:76-100 | the share of a node that an amount takes is the amount over the capacity, none where there is no capacity |
| ClusterBound.HalfBound | osdc/scripts/python/simulate_cluster.py:76-100 | N nodes pairwise too full to share use more than floor(N/2) node shares, for N >= 2 |
| ClusterBound.OfTypeCounts | osdc/scripts/python/simulate_cluster.py:87-88 | the nodes counted for a type are all the nodes of that type |
| ClusterBound.NodeBound | osdc/scripts/python/simulate_cluster.py:194-211 | in every reachable state the N nodes of a type satisfy: summed demand shares exceed floor(N/2) when N >= 2, and N <= 2 * share + 1 |
| ClusterBound.Competitive | osdc/scripts/python/simulate_cluster.py:194-211 | if the same demand fits b nodes in any way at all, the run opened at most one node or fewer than 2 * (number of resources) * b |
| ClusterProgram.SimNode.constructor | osdc/scripts/python/simulate_cluster.py:107-116 | a new node is empty with the given capacity |
| ClusterProgram.SimNode.FitsHere | osdc/scripts/python/simulate_cluster.py:41-42 | fits in all three resources |
| ClusterProgram.SimNode.Remaining | osdc/scripts/python/simulate_cluster.py:91-96 | the score of a node |
| ClusterProgram.SimNode.Take | osdc/scripts/python/simulate_cluster.py:197-200 | adds one runner and its demand |
| ClusterProgram.BestFitPlace | osdc/scripts/python/simulate_cluster.py:76-100 | the first of the tightest nodes of the type that fit; None exactly when none fits |
| ClusterProgram.PlaceRunner | osdc/scripts/python/simulate_cluster.py:194-211 | exactly one node changes, or one is appended, or nothing when the type cannot be provisioned |
| ClusterProgram.DropName | osdc/scripts/python/simulate_cluster.py:183-190 | removes the drawn name and no other |
| ClusterProgram.DrawAndPlace | osdc/scripts/python/simulate_cluster.py:178-214 | the body of the loop makes a turn of the transition system on the updated nodes |
| ClusterProgram.SimTurn | osdc/scripts/python/simulate_cluster.py:169-214 | and so extends the run, with a smaller measure |
| ClusterProgram.Simulate | osdc/scripts/python/simulate_cluster.py:159-221 | the loop ends for every choice of draws, in a halted state of a run of the transition system |
| ClusterProgram.WithDefDistinct | osdc/scripts/python/simulate_cluster.py:142-146 | targets are split into those with a definition and those without |
| ClusterProgram.LastDefinition | osdc/scripts/python/simulate_cluster.py:137 | a name stands for the last definition that has it |
| ClusterProgram.RunSimulation | osdc/scripts/python/simulate_cluster.py:128-221 | run_simulation with its early returns: targets without definitions are skipped, the rest is a halted run |
| Combinations.ListsAscending | osdc/scripts/python/analyze_node_utilization.py:217 | a tuple is listed if and only if it has the length and is ascending |
| Combinations.ListsOnce | osdc/scripts/python/analyze_node_utilization.py:217 | no tuple is listed twice |
| Combinations.ListsInOrder | osdc/scripts/python/analyze_node_utilization.py:217 | the tuples are listed in lexicographic order |
| Combinations.AscendingUnique | osdc/scripts/python/analyze_node_utilization.py:217 | ascending tuples of one multiset are the same tuple |
| Combinations.AscendingExists | osdc/scripts/python/analyze_node_utilization.py:217 | every multiset of indices has an ascending tuple |
| NodePacking.FindOfCount | osdc/scripts/python/analyze_node_utilization.py:217-254 | the fitting combinations of one size, with their demand, waste and utilisation |
| NodePacking.UsedAdds | osdc/scripts/python/analyze_node_utilization.py:218-225 | the demand of a tuple is what its runners take, added up one by one |
| NodePacking.MaxCountIs | osdc/scripts/python/analyze_node_utilization.py:211-214 | the cap is one pod per whole CPU, at least one and at most twenty |
| NodePacking.ComboAddsUp | osdc/scripts/python/analyze_node_utilization.py:235-253 | used and waste make up what is allocatable, the percentages are the used shares, and the names are those of the runners of the tuple, in order |
| NodePacking.ListedInOrder | osdc/scripts/python/analyze_node_utilization.py:216-217 | shorter combinations come first, those of one length in lexicographic order |
| NodePacking.UtilBounds | osdc/scripts/python/analyze_node_utilization.py:235-237 | a listed combination uses between 0 and 100 percent of each resource |
| NodePacking.FindValidCombos | osdc/scripts/python/analyze_node_utilization.py:196-256 | the fitting combinations of all sizes up to the cap, shortest first, each with fields that add up |
| NodePacking.FindMaximalCombos | osdc/scripts/python/analyze_node_utilization.py:259-285 | keeps, in order, the combinations to which no runner can be added |
| NodePacking.InValidPicks | osdc/scripts/python/analyze_node_utilization.py:196-256 | a tuple is listed if and only if it is ascending, within the cap and fits |
| NodePacking.ValidPicksDistinct | osdc/scripts/python/analyze_node_utilization.py:196-256 | across all sizes no tuple is listed twice |
| NodePacking.UsedIsDemand | osdc/scripts/python/analyze_node_utilization.py:218-225 | the demand added up along a tuple is that of its multiset |
| NodePacking.SubFits | osdc/scripts/python/analyze_node_utilization.py:227-233 | whatever fits still fits with runners taken away |
| NodePacking.NoMoreIsMaximal | osdc/scripts/python/analyze_node_utilization.py:270-283 | no single runner can be added if and only if no strictly larger multiset fits |
| NodePacking.KeptDescribes | osdc/scripts/python/analyze_node_utilization.py:259-285 | the kept combinations are those of the kept tuples |
| NodeSlack.ListedExactly | osdc/scripts/python/analyze_node_utilization.py:196-256 | complete enumeration: a multiset of runners is listed if and only if it is non-empty, fits and is within the cap; and it is listed once |
| NodeSlack.KeptExactly | osdc/scripts/python/analyze_node_utilization.py:259-285 | a multiset is kept if and only if it is listed and maximal under inclusion among all that fit |
| NodeSlack.ExtendsIff | osdc/scripts/python/analyze_node_utilization.py:211-285 | every fitting multiset extends to a kept one if and only if none that fits exceeds the cap |
| NodeSlack.OnlyTwenty | osdc/scripts/python/analyze_node_utilization.py:211-214 | with at least one vCPU per runner the cap cuts nothing with at most twenty pods |
| NodeSlack.ComputeNodeSlack | osdc/scripts/python/analyze_node_utilization.py:295-343 | both branches of compute_node_slack |
| NodeSlack.EnumeratedMeans | osdc/scripts/python/analyze_node_utilization.py:333-343 | the enumeration gives the least and greatest CPU and memory that a multiset leaves which fits, is maximal and within the cap; None if and only if there is none |
| NodeSlack.HomogeneousMeans | osdc/scripts/python/analyze_node_utilization.py:308-331 | the shortcut gives the least and greatest that as many pods of one type as floor division says leave; None if and only if it says zero for every type |
| NodeSlack.PodsIs | osdc/scripts/python/analyze_node_utilization.py:312-315 | with nothing negative, that many pods fit and one more does not; 999 stands for no limit |
| NodeSlack.PodsFit | osdc/scripts/python/analyze_node_utilization.py:312-315 | up to 999, k pods of one type fit if and only if k is at most the floor-division count and GPUs are not negative |
| NodeSlack.KeptAlone | osdc/scripts/python/analyze_node_utilization.py:333-334 | for one runner type the enumeration keeps the floor-division count and nothing else |
| NodeSlack.ShortcutIff | osdc/scripts/python/analyze_node_utilization.py:308-343 | for one runner type the shortcut returns what the enumeration returns if and only if floor division gives zero, or one up to the cap with GPUs not negative |
| NodeSlack.ShortcutUpToTwenty | osdc/scripts/python/analyze_node_utilization.py:308-343 | with one vCPU or more and nothing negative: the two agree if and only if at most twenty pods fit; beyond that the enumeration returns None |
| NodeSlack.ShortcutSpans | osdc/scripts/python/analyze_node_utilization.py:308-331 | for any list of types that meet the condition of ShortcutIff one by one, the shortcut gives the least and greatest of what the kept packings of each type alone leave, or None when there are none |
| Watcher.Process.LoadState | osdc/scripts/runner-job-watch/watch.py:196-203 | memory becomes the saved table, or empty when the file is missing, torn or kept from being read |
| Watcher.Process.AppendOutput | osdc/scripts/runner-job-watch/watch.py:475-482 | main log first, then the infra log for infra issues; a fault before, between or in the middle of the writes leaves what was written by then |
| Watcher.Process.SaveState | osdc/scripts/runner-job-watch/watch.py:206-212 | the temporary file is torn while it is written; only a whole one takes the place of the state file |
| Watcher.Process.ProcessOne | osdc/scripts/runner-job-watch/watch.py:502-544 | the whole call for every fetch result, classifier answer and fault point |
| WatchRuns.ClassifiedCall | osdc/scripts/runner-job-watch/watch.py:515-543 | an undisturbed call logs the job with the category of the classifier (unknown for a blank log) in the main log, if it is an infra issue also in the infra log, remembers it and saves the table |
| WatchRuns.FaultyCall | osdc/scripts/runner-job-watch/watch.py:475-543 | what each fault point leaves of that, in both logs, memory, temporary and state file |
| WatchRuns.IdleCall | osdc/scripts/runner-job-watch/watch.py:504-530 | a job in memory, a failed fetch, a stub or a raising classifier change nothing |
| Watcher.Process.PollOnce | osdc/scripts/runner-job-watch/watch.py:600-618 | the jobs not in memory, in order, until the stop flag is set; an exception ends the job, a crash the process |
| Watcher.Process.Watch | osdc/scripts/runner-job-watch/watch.py:597-618 | main over any number of polls and processes |
| WatchRuns.UnseenAre | osdc/scripts/runner-job-watch/watch.py:603 | a poll looks at exactly the jobs that are not in memory, in their order |
| WatchRuns.DueAre | osdc/scripts/runner-job-watch/watch.py:607-609 | of these it gets to those before the stop flag is set |
| WatchRuns.PollTakesAll | osdc/scripts/runner-job-watch/watch.py:602-618 | after an undisturbed poll every job it was given is remembered |
| WatchRuns.JobsAreRun | osdc/scripts/runner-job-watch/watch.py:607-618 | the jobs of a poll are a run of calls, of all of them or of those up to a crash, with the restart that follows |
| WatchRuns.PollsAreRun | osdc/scripts/runner-job-watch/watch.py:597-618 | any number of polls and processes is a run of calls and restarts, so what holds of runs holds of main |
| WatchRuns.RunRestores | osdc/scripts/runner-job-watch/watch.py:196-212 | wherever calls are cut short, the state file is never torn and holds the memory of the last completed save, which is what a restart loads |
| WatchRuns.RunKeepsLogs | osdc/scripts/runner-job-watch/watch.py:502-544 | in every run each remembered or saved job has its entry in full in the main log, and in the infra log if it was an infra issue; the entries of the infra log are a subsequence of those of the main log |
| WatchRuns.SavedStaysRemembered | osdc/scripts/runner-job-watch/watch.py:196-212 | an event keeps the saved jobs within memory if and only if it does not start a process that is kept from reading a non-empty state file |
| WatchRuns.RunSavedIsRemembered | osdc/scripts/runner-job-watch/watch.py:196-212 | crashes and exceptions alone never lose a saved job from memory |
| WatchRuns.EntriesExactly | osdc/scripts/runner-job-watch/watch.py:475-544 | entries of a job plus the times it was regained equal one if it is remembered plus the interruptions that hit it after it was logged |
| WatchRuns.NothingRegained | osdc/scripts/runner-job-watch/watch.py:196-203 | without damage from outside nothing is regained |
| WatchRuns.EntriesAtMost | osdc/scripts/runner-job-watch/watch.py:475-544 | so entries are at most one plus the interruptions, and exactly that for a remembered job |
| WatchRuns.NeverAgain | osdc/scripts/runner-job-watch/watch.py:504-505 | a job saved and remembered is never logged again, whatever follows but damage from outside |
| WatchRuns.InfraExactly | osdc/scripts/runner-job-watch/watch.py:475-482 | the infra log lacks exactly the infra issues whose call stopped between the two logs |
| LogSlice.LinesOccur | osdc/scripts/runner-job-watch/watch.py:287 | every line of a log is a part of its text without a line break |
| LogSlice.LinesRebuild | osdc/scripts/runner-job-watch/watch.py:287 | lines and line breaks, taken in turn, are the text again, a carriage return and its line feed as one break |
| LogSlice.SortIncreasing | osdc/scripts/runner-job-watch/watch.py:270 | sorting a list without repetitions makes it strictly increasing and keeps its elements |
| LogSlice.FindLines | osdc/scripts/runner-job-watch/watch.py:260-271 | every line some pattern matches, ascending, each once |
| LogSlice.ContextIndices | osdc/scripts/runner-job-watch/watch.py:302-306 | exactly the lines within 25 of a match, clipped to the log |
| LogSlice.MergeRanges | osdc/scripts/runner-job-watch/watch.py:310-321 | ranges in order with a gap between any two, covering exactly the given lines |
| LogSlice.RangesAreMaximal | osdc/scripts/runner-job-watch/watch.py:310-321 | no range can be extended on either side |
| LogSlice.RangesUnique | osdc/scripts/runner-job-watch/watch.py:310-321 | there is only one such list of ranges |
| LogSlice.LastThirty | osdc/scripts/runner-job-watch/watch.py:300-301 | a matching line is used if and only if fewer than thirty matching lines come after it |
| LogSlice.ErrorRanges | osdc/scripts/runner-job-watch/watch.py:290-321 | those matching lines, ascending, and the maximal ranges of their windows |
| LogSlice.RangeTextLines | osdc/scripts/runner-job-watch/watch.py:323-325 | the text of a range is its heading, counting from one, and exactly the lines of the range |
| LogSlice.BodyHolds | osdc/scripts/runner-job-watch/watch.py:326-329 | before it is cut the body starts with the end of the log and holds every line of every range |
| LogSlice.SliceLog | osdc/scripts/runner-job-watch/watch.py:285-334 | the text made of trusted block, tail and ranges, cut at the byte limit, for the lines of the log itself |
| LogSlice.MustChunkLines | osdc/scripts/runner-job-watch/watch.py:278-281 | the text for a must-include line is its heading and exactly the lines within five of it |
| LogSlice.MustBlockHolds | osdc/scripts/runner-job-watch/watch.py:274-282 | the trusted block contains every must-include line and the five lines on either side |
| LogSlice.TrustedFirst | osdc/scripts/runner-job-watch/watch.py:330-334 | however the body is cut, the text starts with the whole trusted block |
| ConditionalBlocks.FilterLines | osdc/scripts/python/conditional_blocks.py:19-32 | the loop over the lines equals the one-pass specification |
| ConditionalBlocks.StripIs | osdc/scripts/python/conditional_blocks.py:23 | stripping takes off white space at both ends and leaves none there |
| ConditionalBlocks.MarkersAre | osdc/scripts/python/conditional_blocks.py:17-27 | a line is a marker if and only if it is the marker text with white space around it |
| ConditionalBlocks.KeptLine | osdc/scripts/python/conditional_blocks.py:22-32 | a pass keeps a line unless it is a marker, or the last marker before it opens a block and blocks are dropped |
| ConditionalBlocks.StripConditionalBlock | osdc/scripts/python/conditional_blocks.py:9-33 | the same for every text and tag |
| ConditionalBlocks.PassClean | osdc/scripts/python/conditional_blocks.py:24-29 | no marker of the tag is left, and no line is made up |
| ConditionalBlocks.PassNothing | osdc/scripts/python/conditional_blocks.py:22-32 | lines without markers pass unchanged |
| ConditionalBlocks.DroppedWithinKept | osdc/scripts/python/conditional_blocks.py:30-31 | what keep=False leaves is a subsequence of what keep=True leaves |
| ConditionalBlocks.TwoPasses | osdc/scripts/python/conditional_blocks.py:9-33 | for any lines at all, two passes do the work of one pass that carries the flags of both |
| ConditionalBlocks.CommuteIff | osdc/scripts/python/conditional_blocks.py:9-33 | the order of two passes never matters for the texts with given markers, whatever their plain lines, if and only if both orders decide alike at every plain line; for all four keep settings |
| ConditionalBlocks.LinesCommuteIff | osdc/scripts/python/conditional_blocks.py:9-33 | for one list of lines whose plain ones are all different: both orders leave the same lines if and only if they decide alike at every plain line |
| ConditionalBlocks.KeptPassesCommute | osdc/scripts/python/conditional_blocks.py:9-33 | with one tag kept at least, passes commute on every text, crossing or malformed blocks included |
| ConditionalBlocks.PassesCommute | osdc/scripts/python/conditional_blocks.py:9-33 | with both dropped they commute when the blocks are well formed and do not cross |
| ConditionalBlocks.StripTwice | osdc/scripts/python/conditional_blocks.py:9-33 | a second pass for a tag changes nothing |
| ConditionalBlocks.CrossingMatters | osdc/scripts/python/conditional_blocks.py:9-33 | an example of crossing blocks, both dropped, where the order decides whether a line stays |
| TokenCache.Clients.Setup | gpu-dev/terraform-gpu-devservers/lambda/shared/k8s_client.py:104-110 | a new client and the cache hold the same fresh token |
| TokenCache.Clients.Refresh | gpu-dev/terraform-gpu-devservers/lambda/shared/k8s_client.py:113-123 | the hook leaves cache and key alone while the cache serves, and otherwise renews both |
| TokenCache.RunExplained | gpu-dev/terraform-gpu-devservers/lambda/shared/k8s_client.py:104-123 | in every run the cache holds the token minted last by anyone, each client the token it minted last itself, and the last to mint holds the cached one |
| TokenCache.ExpiredIff | gpu-dev/terraform-gpu-devservers/lambda/shared/k8s_client.py:113-119 | with any number of clients a request goes out with an expired key if and only if some minting was done less than 780 s ago while the own last one was signed 900 s ago or more |
| TokenCache.LastMinterFresh | gpu-dev/terraform-gpu-devservers/lambda/shared/k8s_client.py:113-123 | the client that minted last, or mints now, sends a key younger than 780 s plus minting latency |
| TokenCache.OneClientInStep | gpu-dev/terraform-gpu-devservers/lambda/shared/k8s_client.py:104-123 | with one client the key is the cached token in every state |
| TokenCache.OneClientSafe | gpu-dev/terraform-gpu-devservers/lambda/shared/k8s_client.py:22-123 | with one client every key sent is younger than 780 s plus minting latency, hence below 900 s if minting takes at most 120 s |
| TokenCache.OtherClientExpires | gpu-dev/terraform-gpu-devservers/lambda/shared/k8s_client.py:113-119 | two clients suffice for an expired key |
| GpuHours.DayHours | gpu-dev/admin/generate_stats.py:545-563 | the total of a day is the GPU-time of all reservations within it; the filter drops nothing that counts |
| GpuHours.OverlapCounts | gpu-dev/admin/generate_stats.py:556-561 | the time of a reservation in a window is the number of seconds of the window in which it is running |
| GpuHours.HoursAre | gpu-dev/admin/generate_stats.py:561 | 3600 seconds make an hour |
| GpuHours.GpuSecondsCount | gpu-dev/admin/generate_stats.py:553-563 | GPU-time is these seconds times the GPUs, added up reservation by reservation |
| GpuHours.DailyHours | gpu-dev/admin/generate_stats.py:540-565 | one such total per day, in order |
| GpuHours.GpuSecondsSplit | gpu-dev/admin/generate_stats.py:556-563 | cutting a window in two cuts the GPU-time in two |
| GpuHours.DaysAddUp | gpu-dev/admin/generate_stats.py:540-565 | conservation: the daily totals add up to the GPU-hours within the whole period |
| NameGenerator.ReplaceShrinks | gpu-dev/cli-tools/gpu-dev-cli/gpu_dev_cli/name_generator.py:71-72 | each replacement shortens a name that still has two hyphens together, so the loop ends |
| NameGenerator.ReplaceSqueezes | gpu-dev/cli-tools/gpu-dev-cli/gpu_dev_cli/name_generator.py:71-72 | and does not change what the loop ends with: every run of hyphens cut to one |
| NameGenerator.SanitizeName | gpu-dev/cli-tools/gpu-dev-cli/gpu_dev_cli/name_generator.py:45-81 | the loops compute the characterised name for every ASCII input |
| NameGenerator.SanitizedValid | gpu-dev/cli-tools/gpu-dev-cli/gpu_dev_cli/name_generator.py:45-81 | the result is empty or passes is_valid_name |
| NameGenerator.SanitizedAgain | gpu-dev/cli-tools/gpu-dev-cli/gpu_dev_cli/name_generator.py:45-81 | a second pass takes out the hyphens and nothing else; a third changes nothing |
| NameGenerator.SanitizedOnceIff | gpu-dev/cli-tools/gpu-dev-cli/gpu_dev_cli/name_generator.py:45-81 | a second pass changes nothing if and only if no separator stands between characters that are kept, after at most 61 of them |
| NameGenerator.LowerIs | gpu-dev/cli-tools/gpu-dev-cli/gpu_dev_cli/name_generator.py:59 | capital letters become the small ones, everything else stays |
| NameGenerator.NameCharsAre | gpu-dev/cli-tools/gpu-dev-cli/gpu_dev_cli/name_generator.py:64 | the characters kept are a to z and 0 to 9 |
| NameGenerator.PieceIs | gpu-dev/cli-tools/gpu-dev-cli/gpu_dev_cli/name_generator.py:63-68 | what each character contributes: itself in lower case, a hyphen, or nothing |
| NameGenerator.SanitizedKeeps | gpu-dev/cli-tools/gpu-dev-cli/gpu_dev_cli/name_generator.py:45-81 | apart from hyphens the result is the letters and digits given, in lower case and in order, all of them if the name is not cut; a cut name has 62 or 63 characters |
| NameGenerator.TryNumbered | gpu-dev/cli-tools/gpu-dev-cli/gpu_dev_cli/name_generator.py:110-114 | the variation with the smallest number that is short enough and not in use; none exactly when none of the 998 is |
| NameGenerator.GenerateUniqueName | gpu-dev/cli-tools/gpu-dev-cli/gpu_dev_cli/name_generator.py:84-117 | a valid name not in the list, the sanitised one if it is free; an error exactly when there is no name to give |

## Left out

- The command line, the regular expression that filters the block list, and the generated Terraform file of `simplify_cidr_blocks.py`.
- Signs, blanks, underscores and non-ASCII digits that Python's `int()` accepts: numbers are read as ASCII digits only.
- `CidrText.ParsePrint`: stated for blocks of at most 32 bits, as in IPv4; the reader itself is modelled for any length.
- The printing of combinations and slacks.
- `ClusterProgram.RunSimulation`: the seeded generator and the draw weights are replaced by an arbitrary choice among the remaining names, so nothing is said about which run is likely; the weights, all positive, only bias the choice. The reason text of a skipped label is not modelled.
- Rounding of floating point in the node score, the MAPE and `total * 1.05`: exact reals and integers instead.
- `provision_node` and `compute_allocatable`: the allocatable resources of a type are a parameter, absent when the type is unknown; `kubelet_reserved`, the instance tables and the DaemonSet overhead are not part of this model.
- `build_peak_targets` and `compute_utilization`: plain dictionary sums.
- Runner definitions take vCPU, memory and GPU counts as natural numbers.
- `Watcher.Process.ProcessOne`: the fetched log and the classifier's answer are parameters, and the text of an entry and the remembered fields are reduced to job, time and category.
- `Watcher.Process.AppendOutput`: a half-written entry counts as a line of its own, although the next entry follows it in the same line of the file.
- `Watcher.Process.PollOnce`: the query and the sleep between polls, the lock, and the statistics printed after a poll are not modelled; an exception in the query is a poll without jobs.
- `LogSlice.SliceLog`: patterns are arbitrary predicates on lines.
- Non-ASCII letters and digits in `sanitize_name`: the case rules are those of ASCII.
- `TokenCache.Clients.Setup`: signing of the token, the cluster lookup and the certificate are not modelled; a token is its signing time, and a raised signing error changes nothing.
- `GpuHours.DailyHours`: data frames, plotting and the making of the date range are not modelled; a day has 24 hours.
- Services, lambdas, command-line tools and user interfaces of the other directories, which call external systems or only merge dictionaries.

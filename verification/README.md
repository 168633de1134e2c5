# Verification of the network simplex solver and the runtime protocols

This project models, in Dafny, the parts of the repository whose correctness is hardest to see from
the code, and proves what they are for.

* **The primal network simplex method of `bench/mcf`.** A minimum-cost circulation problem with unit
  capacities is solved on a rooted spanning tree that lives in an intrusive pointer structure (`pred`,
  `child`, `sibling`, `sibling_prev`, `basic_arc`, `orientation`, `flow`, `depth`, `potential`). The
  project proves that a pivot turns a consistent basis into a consistent basis, that the loop ends, and
  that it ends with a cheapest circulation.
* **The CXL job protocol** between `runtime/cira_mmio.cpp` and the firmware in
  `runtime/vortex_device.cpp`: two programs over shared words, one load or store a step, every
  interleaving.
* **Two smaller refinements**: the rings `Channel` and `LockFreeQueue` of `runtime/utils.h` are a bounded
  queue, and the MESI line cache `Type2CacheControllerImpl` of `runtime/src/CiraRuntime.cpp` is flat memory.

## How the model reads the source

Nodes and arcs are records in arrays and point to each other by index; the null pointer is -1. The
dummy arc of node v has index v - 1 and the arcs proper follow from index n on, so `net->arcs` is index n.
`long`, `cost_t` and `flow_t` are mathematical integers. `feas_tol` is the constant 0 that
`bench/mcf/mcf.c` sets. Static variables of a C file are fields of a class (`Pricing.Pricer`), and
`network_t` is the class `Simplex.Net`.

`depth` is not a level but the size of the subtree (the root starts with n + 1 and a leaf with 1). A
tree is recognised by its ancestor sets (`Trees.IsTree`); `Shapes.TreeIsReach` says that this means that
every node reaches the root, and `Shapes.ChildList` that the sibling lists then hold exactly the
children. The flow that a basis stands for (`Network.FlowOf`) gives a basic arc the flow stored at its
node, an arc at its upper bound 1 and every other arc 0. Flows in statements about *all* circulations
are real numbers, so the optimality theorem covers fractional flows too.

`Network.Consistent` is the invariant of the solver: tree and child lists agree, basic arcs run along
the father links, `depth` is the subtree size, an arc is BASIC exactly if a node owns it, flows are 0 or
1 and 0 on arcs into the root, potentials make every basic arc tight, and the flow balances everywhere.
`Network.StronglyFeasible` is the stronger invariant of the states that the solver reaches from its
artificial start; termination rests on it.

A pivot is taken apart like this. `Basis.Reverse` and `Repivot.Repivoted` say on values what the stem
reversal and the two settling loops make of the tree; `TreeUp.UpdateTree` is the imperative code and is
proved to compute exactly that; `Pivoting` shows that this is d units of flow around one cycle;
`RatioTest` and `PivotRules` show that the step fits; `Progress` and `Simplex` put the measure together.

The job protocol is a state machine: `CxlJob` holds the two programs, `CxlProtocol` the invariant,
`CxlPromises` what it promises, and `CxlWitness` the runs that show where a promise ends and the exact
conditions. `CxlFirmware` and `CxlService` follow each side on its own, `service_once` on any doorbell and any
slots, and `cira_mmio_submit_job` and the waits on the host. The firmware is deterministic; the host may arm lines, submit, poll a completion line or the
status mirror, go on carefully or hastily after an answer of `wait_seq`, and write to memory, and an
onlooker may call `cira_mmio_wait_seq` for any number at any time. Runs start from any window, as an earlier
session may have left it. The bodies of the jobs are a parameter (`Work`): a body may depend on the number
of the job, its argument bytes and the memory of the moment, and it changes memory; it is one step.
`Records` holds the argument records of the four jobs, byte by byte. `PrefetchChain` models one body,
`run_prefetch_chain`, over memory as an array of bytes, and `ChainJobs` puts it into the protocol: from the 40
argument bytes to the answer and the buffer. `RecordJobs` does the same for the records of all jobs and for the
body `run_install`.

A call of `primal_bea_mpp` is modelled twice: `PricingRun` says on values which arcs a call keeps and which
it appends, and `Pricing.Pricer` is the imperative code, proved to leave exactly those entries.

`Suspend` is `suspend_impl`, in place; `Removal` says what it means for the optimum between two rounds.

## Findings

Properties that the code does not have, each with an input and the exact condition under which it holds.

* OK from `cira_mmio_wait_seq` need not mean that anything has run: a window keeps the status mirror of an
  earlier session unless it is the zeroed emulated one (`runtime/cira_mmio.cpp:130`), and number 0 is
  reached at once. `CxlWitness.WaitSeqSound` says for which numbers OK is true in every run from a clean
  window, from the mirror and the firmware's counter at the start; `CxlWitness.WindowIsExact` says for every
  window when all runs are in order and OK is true. On a zeroed window these are the numbers of at least 1
  (`CxlWitness.ZeroedWindow`). `PastSuccess` and `PastNumber` give the misleading runs.
* `CIRA_MMIO_EIO` from `wait_seq` may mean that the job is still running, since the RUNNING mirror already
  carries the number (`CxlWitness.EioThenSuccess`), or that a later job failed (`CxlWitness.EioAfterSuccess`).
  It is answered exactly while a job is shown as running or if the last one failed
  (`CxlPromises.EioMeans`). About the last job every answer is right, with every firmware, exactly if the
  status that `wait_seq` reads is not RUNNING (`CxlWitness.EioTrusted`).
* On a reused window the firmware may run a stale job, and a host that submits again after any EIO gets a job
  refused whose record was complete (`CxlWitness.OutOfStep`, `HastyTears`). `CxlWitness.CleanIsExact`: jobs
  run in order and on their own arguments in every run exactly if the doorbell shows the number noticed last,
  a host that polls the mirror does not find an ended job of the past there, and it is not hasty (or never
  gets to see a number).
* A first job is never noticed if the firmware noticed number 1 last: `CxlWitness.LostJob` is a run from every
  such clean window, and `UsedWindow` is one of them, with doorbell and mirror at number 1. Only then is a job
  lost (`CxlPromises.JobIsServed`).
* The static assertion of `Channel` holds for 0 as well as for the powers of two (`Rings.AssertedIs`): a
  `Channel` of size 0 finds room and is about to write past its empty buffer (`Rings.SizeZeroOverruns`);
  every other asserted size writes inside (`Rings.WritesInside`). Size 1 is always full (`Rings.SizeOneIsFull`).
* `primal_bea_mpp` stores the signed reduced cost in `abs_cost` when it refreshes an entry
  (`bench/mcf/pbeampp.c:187`), so it need not return the arc of largest absolute reduced cost in the basket:
  in `PricingWitness.Overlooked` the simplex loop starts on a network, pivots once, and then gets an arc at
  -1 with arcs at -1000 behind it. It does exactly if every arc kept at its lower bound is matched by an arc
  with a positive key, or all arcs in the basket are alike (`PricingRun.LargestIff`); so in a first call, and
  in a call that does not fill the basket the arc is even the largest of all (`Pricing.Pricer.PrimalBeaMpp`).
* `handleSnoop` can bring an INVALID line with stale bytes back, exactly if the new state is not INVALID and
  the bytes differ from memory (`Type2Cache.Controller.HandleSnoop`); `Type2Cache.Revive` is such a run.
* `cacheLoad` of less than a line, or from an address inside a line, calls the whole line SHARED when it
  misses. The cache stays coherent exactly if the line it has put together is the one in memory, which from
  the start of a line means that the bytes not fetched are those of memory (`Type2Cache.Controller.Load`);
  `Type2Cache.LoadShort` and `Type2Cache.LoadInside` are runs in which it is not.

## Model

| member | source | states |
|---|---|---|
| Shapes.TreeIsReach | bench/mcf/defines.h:107-122 | a father array is a tree exactly if following `pred` leads from every node to the root |
| Shapes.ChildList | bench/mcf/defines.h:107-122 | following `child` and then `sibling` meets every node with that father exactly once and no other node |
| Trees.MoveSubtree | bench/mcf/treeup.c:120-121 | hanging the subtree of u under a node outside it gives a tree again, and what every ancestor set becomes |
| Trees.SizeOrder | bench/mcf/pbla.c:61-75 | a proper ancestor has a strictly larger subtree, so comparing sizes orders every path |
| Links.RehungLinked | bench/mcf/treeup.c:113-125 | cutting a node out of its sibling list and pushing it in front of another keeps all four link fields consistent |
| Walks.Finish | bench/mcf/treeup.c:82-102 | when the stackless walk is back at its start it has met exactly the nodes of the subtree |
| Flows.Cheapest | bench/mcf/psimplex.c:77-170 | a circulation complementary to some potentials costs no more than any circulation within the same bounds |
| Flows.CirculationReduced | bench/mcf/psimplex.c:77-170 | on a circulation, total cost and total reduced cost agree for every choice of potentials |
| Basis.ArcsDistinct | bench/mcf/treeup.c:132-137 | two nodes never share a basic arc |
| Basis.ReverseSpanning | bench/mcf/treeup.c:111-147 | reversing the stem keeps the basic arcs along the father links of a spanning tree |
| Basis.ReverseEffect | bench/mcf/treeup.c:111-147 | what each node's father, arc, orientation, flow and size become along the reversed stem, and that all other nodes keep theirs |
| Basis.ReverseSubs | bench/mcf/treeup.c:142-144 | which nodes lie below which after the stem reversal: below the old top of the stem all of its subtree minus the old part below |
| Cycles.SwingExcess | bench/mcf/treeup.c:149-167 | sending d units down one tree path and up another changes the excess of the two ends only |
| Cycles.SwingCost | bench/mcf/treeup.c:149-167 | and its cost is d times the difference of the potentials of the ends, by telescoping |
| Repivot.RepivotedSpanning | bench/mcf/treeup.c:106-174 | the tree after the exchange is a spanning tree along basic arcs |
| Repivot.RepivotedDepth | bench/mcf/treeup.c:142-173 | and every `depth` is again the size of the new subtree |
| Repivot.CycleParts | bench/mcf/treeup.c:149-167 | the stem and the two settled paths are disjoint and make up the cycle |
| Pivoting.ExchangedArcs | bench/mcf/psimplex.c:144-150 | the set of basic arcs changes by exactly the leaving arc out and the entering arc in |
| Pivoting.ExchangedSame | bench/mcf/psimplex.c:144-150 | of the arcs only idents change, FIXED arcs stay FIXED, and nodes keep their numbers and adjacency lists |
| Pivoting.ExchangedTree | bench/mcf/psimplex.c:144-150 | well-formed tree in, well-formed tree out |
| Pivoting.ExchangedIdents | bench/mcf/psimplex.c:149-150 | idents say again which arcs are basic, and no dummy arc goes to its upper bound |
| Pivoting.ExchangedCirculated | bench/mcf/psimplex.c:144-150 | the represented flow is the old one with d units sent around the cycle of the entering arc |
| Pivoting.ExchangedPriced | bench/mcf/treeup.c:72-102 | shifting the subtree by the reduced cost makes the entering arc tight and keeps the other basic arcs tight |
| Pivoting.CycleConserves | bench/mcf/psimplex.c:89-150 | such a circulation keeps every node balanced |
| Pivoting.CycleCost | bench/mcf/psimplex.c:89-150 | and changes the total cost by d times the reduced cost of the entering arc |
| Pivoting.ExchangeKeeps | bench/mcf/psimplex.c:116-150 | one basis exchange turns a consistent basis into a consistent basis of the same graph |
| RatioTest.Climb | bench/mcf/pbla.c:59-76 | climbing from the node with the smaller subtree cannot pass the lowest common ancestor |
| RatioTest.TestI | bench/mcf/pbla.c:61-67 | one `>` test keeps the blocking node the last one in cycle order |
| RatioTest.TestJ | bench/mcf/pbla.c:69-75 | one `>=` test keeps the blocking node the last one in cycle order |
| RatioTest.PrimalIminus | bench/mcf/pbla.c:29-82 | ends with w the lowest common ancestor, delta the least residual on the cycle capped at 1, and the last blocking node in cycle order from w, or NULL if nothing blocks |
| PivotRules.StepFits | bench/mcf/pbla.c:61-76 | after a step of delta every flow on the cycle is 0 or 1 and arcs into the root carry nothing |
| PivotRules.LeavingBound | bench/mcf/psimplex.c:129-132 | the new ident of the leaving arc is the bound its flow has reached |
| PivotRules.StrongTest | bench/mcf/pbla.c:61-76 | on a strongly feasible basis the test finds the arc of iplus itself with step 0 unless iplus is the common ancestor |
| PivotSteps.MoveLegal | bench/mcf/psimplex.c:116-147 | the arguments of update_tree after the ratio test: the stem holds the leaving arc, the entering arc joins its ends with a fitting flow |
| PivotSteps.ExchangeBasis | bench/mcf/psimplex.c:116-150 | the branch with a leaving arc performs exactly the exchange that the lemmas are about |
| PivotSteps.ExchangeBound | bench/mcf/psimplex.c:104-115 | the branch without one flips the cycle and moves the entering arc to its other bound |
| TreeUp.ShiftPotentials | bench/mcf/treeup.c:82-102 | the goto walk adds sigma to the potential of each node of the subtree exactly once and changes nothing else |
| TreeUp.ReverseStem | bench/mcf/treeup.c:106-147 | the stem loop, in place, computes the reversed basis and leaves a linked tree |
| TreeUp.SettlePath | bench/mcf/treeup.c:149-174 | one settling loop changes flow and size on its path only |
| TreeUp.UpdateTree | bench/mcf/treeup.c:29-176 | the whole function: links, fathers, arcs, orientations, flows, sizes and potentials are those of the exchange |
| McfUtil.RefreshPotential | bench/mcf/mcfutil.c:96-145 | every node gets the potential its basic arc asks for, nothing else changes, and the result counts the DOWN nodes |
| McfUtil.PricingUnique | bench/mcf/mcfutil.c:96-131 | the tree determines the potentials |
| McfUtil.RefreshIdempotent | bench/mcf/mcfutil.c:96-131 | on a priced basis the recomputation changes nothing |
| FlowUpdate.PrimalUpdateFlow | bench/mcf/pflowup.c:40-54 | flips exactly the flows on the two paths to w, in the direction of the cycle |
| FlowUpdate.BoundKeeps | bench/mcf/psimplex.c:104-115 | a bound exchange keeps a consistent basis consistent and is one unit around the cycle |
| Start.StarConsistent | bench/mcf/pstart.c:39-79 | the artificial star is a consistent and strongly feasible basis |
| Start.PrimalStartArtificial | bench/mcf/pstart.c:39-79 | the code builds that star and sets every arc proper to FIXED or AT_LOWER |
| Progress.ExchangeStrong | bench/mcf/pbla.c:61-76 | the tie-breaking keeps strong feasibility through a basis exchange |
| Progress.BoundStrong | bench/mcf/psimplex.c:104-115 | from a strongly feasible basis only a self-loop changes its bound |
| Progress.ShiftLowersSum | bench/mcf/treeup.c:72-102 | a negative shift of a non-empty subtree lowers the sum of the potentials |
| Progress.SumBounded | bench/mcf/treeup.c:72-102 | which is bounded below for every basis of the same graph |
| Simplex.Optimal | bench/mcf/pbeampp.c:222-230 | when no arc is dual infeasible the represented flow is cheapest among all real circulations in [0,1] that leave FIXED arcs empty |
| Simplex.DummiesUnused | bench/mcf/pstart.c:71-72 | no circulation with flows in [0,1] uses a dummy arc, as nothing leaves the root |
| Simplex.MeasureBounded | bench/mcf/psimplex.c:77-167 | cost and potential sum have lower bounds that only depend on the graph |
| Simplex.ExchangeOutcome | bench/mcf/psimplex.c:116-150 | a basis exchange lowers the cost by exactly delta times the size of the reduced cost |
| Simplex.BoundOutcome | bench/mcf/psimplex.c:104-115 | a bound exchange lowers it by exactly the size of the reduced cost |
| Simplex.ExchangeProgress | bench/mcf/psimplex.c:116-150 | with delta 0 the sum of the potentials falls |
| Simplex.PivotFalls | bench/mcf/psimplex.c:77-167 | every pivot lowers the cost, or keeps it and lowers the potential sum |
| Simplex.Net.StartArtificial | bench/mcf/pstart.c:39-79 | the start establishes the invariants of the loop |
| Simplex.Net.Pivot | bench/mcf/psimplex.c:79-164 | the loop body, from any consistent basis: a consistent basis of the same network again, cost and the three counters accounted for, strong feasibility kept; then exactly the self-loops count as bound exchanges, and nothing but their ident changes |
| Simplex.Net.RefreshQuietly | bench/mcf/psimplex.c:152-170 | refreshing the potentials of a consistent basis changes only the checksum, by the number of DOWN nodes |
| Simplex.Net.PrimalNetSimplex | bench/mcf/psimplex.c:77-170 | the loop terminates with a basis of the same network without dual infeasible arcs, and its flow is a circulation that no other is cheaper than; without a pivot nothing changes but the checksum, by the DOWN nodes, which are the last to be added to it in any case |
| Solver.Solve | bench/mcf/mcf.c:153-158 | start, simplex loop and flow_cost together: the flow fields hold a circulation that no other of the given arcs is cheaper than, and the number reported is its cost less that of the arcs from a negative to a positive node number |
| Removal.DropArcs | bench/mcf/mcf.c:95-97 | suspending arcs between two rounds leaves a consistent and strongly feasible basis of the same cost and potentials; an optimal basis stays optimal, and with a threshold of at least -1 there are infeasible arcs exactly if there were, and without them the basis is also optimal with the dropped arcs put back |
| Removal.DroppedOptimal | bench/mcf/implicit.c:394-438 | if no circulation on all arcs is cheaper than the basis, none on the remaining arcs is |
| Removal.DroppedPriced | bench/mcf/implicit.c:404-428 | with a threshold of at least -1 no dual infeasible arc goes, and what is left has an infeasible arc exactly if there was one |
| Removal.StillOptimal | bench/mcf/implicit.c:404-428 | then a basis without infeasible arcs among those left is cheapest among the circulations on all arcs |
| BasketSort.Partition | bench/mcf/pbeampp.c:109-132 | the do-while loop stays in bounds, ends, permutes, and splits by the cut |
| BasketSort.SortBasket | bench/mcf/pbeampp.c:99-138 | permutes perm[min..max] and leaves key[i] >= key[j] for i < j and i <= B, although it skips recursion beyond B |
| BasketSort.HalvesSorted | bench/mcf/pbeampp.c:134-137 | why sorting the left half, and the right half only if it starts within B, suffices |
| PricingRun.GroupGap | bench/mcf/pbeampp.c:206-213 | members of one residue group lie at least one stride apart |
| PricingRun.GroupSize | bench/mcf/pbeampp.c:193-199 | with that many groups no group has more than K arcs |
| PricingRun.GroupsFor | bench/mcf/pbeampp.c:193-199 | the number of groups is the least with which none has more than K arcs |
| PricingRun.GroupRunAll | bench/mcf/pbeampp.c:209-213 | going through a group without filling the basket appends every infeasible arc of it |
| PricingRun.GroupsRunAll | bench/mcf/pbeampp.c:201-220 | a call that does not fill the basket has priced every group and appended every infeasible arc |
| PricingRun.GroupsRunExact | bench/mcf/pbeampp.c:201-220 | the groups that had their turn are those from the old position to the new one, all of them unless B entries are there; only arcs of theirs are appended, and without the guard every infeasible one |
| PricingRun.Keys | bench/mcf/pbeampp.c:180-189 | the key of an entry is the absolute reduced cost, or for an arc kept at its lower bound the negative one |
| PricingRun.LargestIff | bench/mcf/pbeampp.c:187 | the entry with the largest key has the largest absolute reduced cost exactly if no arc kept at its lower bound is hidden by its key |
| Pricing.KeepOne | bench/mcf/pbeampp.c:178-190 | an entry that is still infeasible moves, repriced, to the place after the ones kept before it |
| Pricing.SortKeepsEntries | bench/mcf/pbeampp.c:232 | sorting the pointers permutes the entries |
| Pricing.SortedFront | bench/mcf/pbeampp.c:232-238 | and puts one with the largest key in front |
| Pricing.Pricer.Recheck | bench/mcf/pbeampp.c:178-190 | of the entries 2 .. B exactly those still infeasible remain, in their order, with the current signed reduced cost as cost and key |
| Pricing.Pricer.KeptExactly | bench/mcf/pbeampp.c:178-190 | the arcs kept are exactly the infeasible ones of the places 2 to B and to the size of the basket |
| Pricing.Pricer.Remote | bench/mcf/main_wrapper.c:22-44 | an infeasible arc is appended, exactly once and with its reduced cost, unless `remote` has B entries already; `remote1` always appends |
| Pricing.Pricer.PriceGroup | bench/mcf/pbeampp.c:205-213 | appends exactly the entries that the run through the group says, and even without the guard no more than K |
| Pricing.Pricer.PriceGroups | bench/mcf/pbeampp.c:201-220 | appends exactly the entries of the groups from the position on, until B are there or all had their turn, and leaves the position behind the last |
| Pricing.Pricer.PrimalBeaMpp | bench/mcf/pbeampp.c:147-239 | the basket holds exactly the kept and the appended entries; NULL exactly if there are none, and then no arc is dual infeasible; otherwise an infeasible arc with its current reduced cost, the largest in the basket exactly if none is hidden, in a first call, and of all arcs if the basket is not filled; for every static state earlier calls leave |
| PricingWitness.Overlooked | bench/mcf/psimplex.c:77-115 | from the artificial start of a network of one node with loops, two pricings with a pivot between them after which an arc at -1 is returned and one at -1000 is behind it |
| NeighbourLists.RefreshNeighbourLists | bench/mcf/mcfutil.c:47-61 | rebuilds the two adjacency lists and changes nothing else |
| NeighbourLists.ListsAreNeighbours | bench/mcf/mcfutil.c:55-61 | following such a list from a node meets each of its arcs exactly once, last to first |
| FlowCost.FlowCost | bench/mcf/mcfutil.c:155-213 | writes the represented flow into every arc proper, leaves spare places alone and returns its cost less that of the arcs from a negative to a positive node number; without such arcs this is the cost that the simplex method minimises |
| FlowCost.BillIsCost | bench/mcf/mcfutil.c:187-213 | the sum over the arcs is the cost of the represented flow less that of the arcs from a negative to a positive node number |
| FlowCost.AddCosts | bench/mcf/mcfutil.c:187-213 | taking bigM off every vehicle arc and putting it back per vehicle leaves the plain sum of costs |
| Compaction.SqueezedAt | bench/mcf/implicit.c:430-434 | a kept element sits at the number of kept ones before it |
| Compaction.CameFrom | bench/mcf/implicit.c:430-434 | and every place of the result is taken by a kept element |
| Compaction.SameExcess | bench/mcf/implicit.c:394-438 | dropping arcs without flow leaves every excess as it was |
| Suspend.BasisStays | bench/mcf/implicit.c:404-428 | basic and saturated implicit arcs stay exactly if there are none or the threshold is at least -2 |
| Suspend.RedirectStep | bench/mcf/implicit.c:411-418 | the redirected pointers never hide the owner of the next basic arc |
| Suspend.CompactArcs | bench/mcf/implicit.c:394-436 | in place: the stable sub-sequence of arcs whose reduced cost, or -2 for those not at their lower bound, is within the threshold, and every node's basic_arc on the moved copy |
| Suspend.RemovedExactly | bench/mcf/implicit.c:404-436 | with a threshold of at least -2 an arc goes exactly if it is implicit and at its lower bound with a reduced cost over the threshold; the others stay in their order, unchanged up to the list links |
| Suspend.SuspensionKeeps | bench/mcf/implicit.c:394-438 | with a threshold of at least -2 the tree, potentials, circulation, its cost and both invariants survive |
| Suspend.RemovedBasicArc | bench/mcf/implicit.c:411-418 | the arc under a node's pointer is the same arc as before |
| Simplex.Net.SuspendImpl | bench/mcf/implicit.c:374-441 | the call with `all` 0: counters, compaction, pointers, and fresh adjacency lists if an arc is gone |
| CxlProtocol.CheckedArg | runtime/vortex_device.cpp:730-737 | the five checks of the slot fail exactly if the argument record is too short |
| CxlProtocol.RunOutcome | runtime/vortex_device.cpp:730-737 | while a job runs the firmware reads exactly the staged bytes, and it ends as staged |
| CxlProtocol.RunInv | runtime/cira_mmio.cpp:349-367 | after any interleaving of steps: who may be where, what is stored so far of doorbell and slot, what the firmware holds, what the completion line and the mirror show |
| CxlPromises.InOrderAndUntorn | runtime/vortex_device.cpp:935-979 | from a clean window, in every run the jobs executed are a prefix of the jobs submitted, each once, under its number and on its own arguments, whether or not the job before it failed |
| CxlWitness.CleanIsExact | runtime/vortex_device.cpp:961-979 | exactly from a clean window does this hold in every run with every firmware |
| CxlWitness.OutOfStep | runtime/vortex_device.cpp:961-979 | from a window whose doorbell or mirror is out of step some run breaks it, whatever the bodies of the jobs are |
| CxlWitness.HastyTears | runtime/cira_mmio.cpp:405 | a caller that submits again after any EIO breaks it, from every window in step on which number 1 was not the last one noticed |
| CxlPromises.BodyMemory | runtime/vortex_device.cpp:961-979 | in every run, each body finds the memory that the body before it left, but for the host's own stores |
| CxlPromises.AnswersAreTrue | runtime/cira_mmio.cpp:280-305 | what wait_completion leads the host to read is status and result of that very job |
| CxlPromises.AnswerMemory | runtime/cira_mmio.cpp:280-305 | and memory then is what the job left, but for the host's own stores |
| CxlPromises.MirrorIsTrue | runtime/vortex_device.cpp:699-710 | outside the stores that announce a job, the status mirror names the last job noticed with its id, as running or as it ended |
| CxlPromises.OkIsTrue | runtime/cira_mmio.cpp:389-411 | OK from wait_seq for a number not reached before the session means that a job with at least that number has succeeded |
| CxlWitness.WaitSeqSound | runtime/cira_mmio.cpp:389-411 | from a clean window: for which numbers OK can be trusted in every run, exactly, from what the window held at the start |
| CxlWitness.WindowIsExact | runtime/cira_mmio.cpp:389-411 | from any window: every run is in order and untorn and OK for this number is true, exactly if the window is clean and the number trusted |
| CxlWitness.ZeroedWindow | runtime/cira_mmio.cpp:130 | on a zeroed window these are the numbers of at least 1, no job goes unnoticed, and the window is clean unless the host is hasty |
| CxlPromises.EioMeans | runtime/cira_mmio.cpp:405 | wait_seq answers EIO exactly while a job is shown as running or if the last one failed, whatever became of the job asked for |
| CxlWitness.EioTrusted | runtime/cira_mmio.cpp:405 | the answer about the last job tells how it ends, with every firmware, exactly if the status read is not RUNNING |
| CxlWitness.EioThenSuccess | runtime/cira_mmio.cpp:405 | a run in which EIO is answered for a job that then succeeds |
| CxlWitness.EioAfterSuccess | runtime/cira_mmio.cpp:405 | a run in which EIO is answered for a job that has succeeded |
| CxlPromises.JobIsServed | runtime/vortex_device.cpp:961-979 | the firmware alone brings a submitted job to its end, exactly unless it is the first and its number the one noticed last before |
| CxlWitness.LostJob | runtime/vortex_device.cpp:961-979 | from every clean window with number 1 noticed last, a run after which the firmware never settles the job |
| CxlWitness.UsedWindow | runtime/cira_mmio.cpp:130 | there is such a window, with the mirror of a job that has succeeded |
| CxlPromises.SettledMeans | runtime/vortex_device.cpp:685-697 | and then the completion line holds its result |
| CxlFirmware.ServiceOnce | runtime/vortex_device.cpp:935-979 | the firmware on its own, on any doorbell with a valid magic and a new number and on any slots: which job is run on which bytes, or with which status it is refused, and what doorbell, mirror and completion line then hold |
| CxlFirmware.RunsJob | runtime/vortex_device.cpp:814-840 | run_job on any doorbell and any slots: version, id and the five conditions of the slot, with the sizes of the four records |
| CxlFirmware.LeftAlone | runtime/vortex_device.cpp:968-977 | any other doorbell is left alone for ever |
| CxlService.SubmitStores | runtime/cira_mmio.cpp:349-367 | submit_job on its own leaves the arguments, the slot header and the doorbell of its job, and changes nothing else |
| CxlService.LineAnswers | runtime/cira_mmio.cpp:280-305 | once the job is settled, wait_completion ends, with success and the result of the job, whatever that is |
| CxlService.MirrorEnds | runtime/cira_mmio.cpp:389-411 | a wait for the job by its number ends on any number that is not below it and comes with a final status |
| CxlService.MirrorAnswers | runtime/cira_mmio.cpp:389-411 | so it ends once the job is settled with a final status |
| CxlService.WaitsOn | runtime/cira_mmio.cpp:300-411 | neither wait ends before that |
| CxlService.OnlookerReturns | runtime/cira_mmio.cpp:389-411 | wait_seq for any number goes on while the mirror shows a lower one, and then returns OK exactly if the status is SUCCESS |
| CxlService.Answerable | runtime/cira_mmio.cpp:280-305 | from every clean window on which number 1 was not the last one noticed, every whole job wired to an armed line whose body serves it has a run in which the host gets the result of the body |
| DeviceJobs.StoreBytes | runtime/cira_mmio.cpp:68-78 | words and then bytes: the destination holds the source, nothing else changes |
| DeviceJobs.CopyBytes | runtime/vortex_device.cpp:620-629 | a copy within memory, unit by unit, between any two ranges |
| DeviceJobs.CopyRunApart | runtime/vortex_device.cpp:620-629 | unless the destination starts inside the source it ends up with the bytes of the source and nothing else changes |
| DeviceJobs.CopyRunWord | runtime/vortex_device.cpp:620-629 | a single word is copied whole whatever the ranges share |
| DeviceJobs.CopyRunSmears | runtime/vortex_device.cpp:620-629 | less than a word is copied byte by byte: a destination that starts inside the source repeats the bytes in front of it |
| DeviceJobs.InstallRange | runtime/vortex_device.cpp:639-666 | leaves memory as it is and counts the lines from that of the first byte to that of the last |
| PrefetchChain.RunPrefetchChain | runtime/vortex_device.cpp:748-775 | on any memory that the walk does not leave, the loop computes the walk that ChainRun defines, pointers and data read as the copies before have left them |
| PrefetchChain.ChainGathers | runtime/vortex_device.cpp:748-775 | if the buffer lies apart from the list, the result is the number of nodes up to the depth, the buffer holds their data in order, and nothing else has changed |
| PrefetchChain.NodeAt | runtime/vortex_device.cpp:757-770 | which nodes those are: each is what the one before points to, and the last points to null or is number depth |
| Records.InstallDecodeEncode | runtime/include/cira_cxl_job.h:104-110 | the record has 32 bytes with each field at its offset, low byte first, and the device decodes what the host encoded |
| Records.InstallEncodeDecode | runtime/include/cira_cxl_job.h:104-110 | every record of 32 bytes is the encoding of what it decodes to |
| Records.ChainDecodeEncode | runtime/include/cira_cxl_job.h:112-120 | the record has 40 bytes with each field at its offset, low byte first, and the device decodes what the host encoded |
| Records.ChainEncodeDecode | runtime/include/cira_cxl_job.h:112-120 | every record of 40 bytes is the encoding of what it decodes to |
| Records.StreamDecodeEncode | runtime/include/cira_cxl_job.h:122-130 | the record has 48 bytes with each field at its offset, low byte first, and the device decodes what the host encoded |
| Records.StreamEncodeDecode | runtime/include/cira_cxl_job.h:122-130 | every record of 48 bytes is the encoding of what it decodes to |
| Records.CallDecodeEncode | runtime/include/cira_cxl_job.h:132-138 | the record has 32 bytes with each field at its offset, low byte first, and the device decodes what the host encoded |
| Records.CallEncodeDecode | runtime/include/cira_cxl_job.h:132-138 | every record of 32 bytes is the encoding of what it decodes to |
| RecordJobs.RunOnRecord | runtime/vortex_device.cpp:730-737 | from a clean window, in every run a job is run on exactly its own record if that is whole, and refused otherwise |
| RecordJobs.InstallRun | runtime/vortex_device.cpp:826-828 | in particular an INSTALL_CACHELINE job on the record its caller encoded |
| RecordJobs.ChainRun | runtime/vortex_device.cpp:829-831 | the same for PREFETCH_CHAIN |
| RecordJobs.StreamRun | runtime/vortex_device.cpp:832-834 | the same for STREAM_PREFETCH |
| RecordJobs.CallRun | runtime/vortex_device.cpp:835-836 | the same for CALL |
| RecordJobs.RunInstall | runtime/vortex_device.cpp:739-746 | run_install: refused without an address or a size, otherwise the number of lines, and memory is as it was |
| RecordJobs.InstallAnswer | runtime/vortex_device.cpp:739-746 | with this body, the answer to an install job is the number of lines that its range touches |
| ChainJobs.DeviceIsWired | runtime/vortex_device.cpp:829-831 | there is a firmware with this body, and a caller that watches the line its record names keeps to the discipline |
| ChainJobs.ChainJobsRun | runtime/vortex_device.cpp:829-831 | in every run, each prefetch-chain job ended as run_prefetch_chain does on its own bytes and the memory of the moment, or was refused for a short record |
| ChainJobs.ChainAnswer | runtime/vortex_device.cpp:748-775 | its answer is the number of nodes of the list at that moment up to the depth, and its body left their data in the buffer |
| ChainJobs.HostFindsData | runtime/cira_mmio.cpp:280-305 | when the completion line tells the host that the job is over, each byte of the buffer is that of its node, unless the host has written there since |
| Rings.AssertedIs | runtime/utils.h:83-86 | the static assertion, with the wrap-around of size_t, holds exactly for powers of two and 0 |
| Rings.AdvanceIs | runtime/utils.h:15-22 | the mask form and the modulo form go around the ring alike |
| Rings.WriteIsSafe | runtime/utils.h:89-98 | the slot about to be written holds no unread item |
| Rings.ReceivedIsPrefix | runtime/utils.h:78-108 | in every interleaving the items received are a prefix of those sent and at most Size - 1 are under way |
| Rings.SenderRefines | runtime/utils.h:89-98 | every atomic step of the sender is a step of a bounded queue, and it is refused exactly when that queue is full |
| Rings.ReceiverRefines | runtime/utils.h:100-108 | the same for the receiver, refused exactly when the queue is empty |
| Rings.SizeOneIsFull | runtime/utils.h:78-98 | a ring of size 1 never takes an item |
| Rings.WritesInside | runtime/utils.h:89-98 | for every asserted size but 0, each write of each run is inside the buffer |
| Rings.SizeZeroOverruns | runtime/utils.h:83-98 | a Channel of size 0 passes the assertion, and its first send writes past the empty buffer |
| Type2Cache.Controller.Load | runtime/src/CiraRuntime.cpp:785-818 | a hit returns the line; a miss puts `size` bytes from the address on at the start of the line and keeps the rest of the old one, and the cache stays coherent, with the view unchanged and its line returned, exactly if that is the line in memory |
| Type2Cache.Controller.Store | runtime/src/CiraRuntime.cpp:821-856 | byte by byte: the data at the start of the line, behind it the old line, or on a miss the bytes fetched from the address on; the line is MODIFIED and the rest of the view as it was |
| Type2Cache.Controller.Evict | runtime/src/CiraRuntime.cpp:858-877 | with write-back the view stays and memory catches up, without it the line falls back to memory |
| Type2Cache.Controller.HandleSnoop | runtime/src/CiraRuntime.cpp:913-933 | keeps the bytes of every line, and keeps the cache coherent and the view unchanged exactly if no INVALID line with stale bytes is revived |
| Type2Cache.Revive | runtime/src/CiraRuntime.cpp:913-933 | a load, a store by the host and a snoop after which the device sees the old bytes |
| Type2Cache.LoadShort | runtime/src/CiraRuntime.cpp:785-818 | a load of 8 bytes after which the device view differs from memory |
| Type2Cache.LoadInside | runtime/src/CiraRuntime.cpp:785-818 | the same for a load inside a line |
| Type2Cache.Controller.InvalidateRange | runtime/src/CiraRuntime.cpp:935-952 | every line that ends behind the aligned-down start of the range and starts before its end is INVALID and up to date in memory, the others keep their state |
| Type2Cache.InvalidateByte | runtime/src/CiraRuntime.cpp:935-952 | so the line of each byte of the range is INVALID and memory holds what the device saw |
| Type2Cache.PerformAll | runtime/src/CiraRuntime.cpp:785-952 | a run of line loads, line stores, write-backs, snoops, invalidations and host stores answers like flat memory, in which a store replaces the bytes from the start of its line on, up to the first snoop that revives stale bytes, and the contents differ from flat memory exactly there |

## Left out

- The later rounds of `global_opt`: `price_out_impl`, `insert_new_arc`, `replace_weaker_arc`, `resize_prob` in `bench/mcf/implicit.c`: heap loops that break out early and pointer rebasing after realloc, without a clear specification.
- `suspend_impl` with `all` set, which no call uses; `primal_feasible`, `dual_feasible`, reading and writing files, profiling, and the offload buffers of `bench/mcf/pbeampp.c`.
- Overflow of `long`, weak memory beyond the order of the stores, timeouts, monitor-wait instructions, environment variables and mmap.
- Arcs whose ident is FIXED are taken to carry no flow: pricing never considers them, and the optimality theorem compares with circulations that leave them empty.
- FlowCost.FlowCost: the sum is exact; the rounding of the C function's `double` is not modelled.
- Simplex.Net.SuspendImpl: asks that each basic arc has one known owner (`Suspend.Owned`, which `Suspend.BasisOwned` derives from a consistent basis); what a threshold below -2 does to the basis is not stated beyond `Suspend.BasisStays`.
- CxlPromises.InOrderAndUntorn: for one host window with one counter and for callers that arm a line before they name it in a job and submit again only after the last job's completion or an answer of wait_seq for its number; `vortex_cxl_submit_job_mmio`, a second submitter, is not in the model.
- CxlPromises.BodyMemory: the body of a job is one step on memory, so a host that writes to memory while a body runs is not in the model; bodies do not write the window or a completion line themselves, and completion lines are not part of the modelled memory.
- Clocks: cycle counts and time stamps in the completion line are 0. Arming a line is one step of the protocol.
- DeviceJobs.InstallRange: that each line is read and written back does not show in memory, and the contract does not say it.
- PrefetchChain.RunPrefetchChain: every address is within memory, whose size does not exceed the address space, so no address wraps around; the stream and call bodies are parameters of the protocol only.
- Pricing.Pricer.PriceGroup: `runtime/affinity_mcf.cpp` reaches `remote1` through a channel to another thread; here the append is a direct call, so the loop sees its entry at once.
- Type2Cache.Controller.Load: the returned pointer into the cache is a copy; line 0 (the null address and the BAR2 fallback), `memLoad`, `memStore`, `shutdown` and the delay buffer are not in the model.
- Type2Cache.Controller.Store: the bytes fetched on a miss are taken to lie in memory.
- Type2Cache.Controller.Evict: `cacheEvict` and `handleSnoop` are given addresses of the start of a line; they write a whole line back to the address given.
- The single-threaded face of `Channel` and `LockFreeQueue`, `cira_jit_decide` and the other cost models, the compiler passes, the drivers and the scripts.

# A verified model of the OpenMaterials map and its distances

OpenMaterials keeps a map of quantities (nodes) and the operators that relate them (edges) as an append-only,
hash-chained log. Contributions pass admission gates before they are pushed, a synchronizer compares the map with the
Python operator layer, pages draw parts of the map and share selections of it through short links, and a family of
distances compares materials. This project models the algorithms at the centre of that system in Dafny and proves what
they promise. `dafny verify dfyconfig.toml` checks all of it.

| files | what they model |
|---|---|
| `MapRecords.dfy`, `MapStore.dfy` | the change records, their replay, and the store: log, mirror files, push, propose, read, diff, verify |
| `Gates.dfy`, `Contributions.dfy`, `Admission.dfy` | the admission gates, what an admitted contribution does to the whole map, and what the gates ask in terms of inputs and outputs alone |
| `Reproposal.dfy`, `Proposals.dfy` | proposing a contribution again after it landed or after a crash part-way, and what a crash leaves in the log |
| `Sync.dfy`, `SyncConverges.dfy`, `Landing.dfy`, `InSync.dfy`, `SyncApply.dfy` | the diff against the operator layer, why landing it converges, what being in sync means for the stored map, and what `--apply` leaves for the next run |
| `ExternalSolve.dfy` | live-map reachability as a fixed point over edges with several inputs and outputs |
| `ElementMover.dfy`, `OptimalTransport.dfy`, `PettiforScale.dfy` | the Element Mover's Distance as optimal transport on the Pettifor scale |
| `Funnel.dfy`, `PooledBound.dfy`, `PlanMetric.dfy` | exact nearest-neighbour search with pruning by a certified bound, why the distance between means is one, and why the transport distance is a metric |
| `FarthestPoint.dfy`, `Pigeonhole.dfy` | farthest-point sampling and the weights of an environment set |
| `BreadthFirst.dfy` | what both breadth-first searches keep, with and without a depth cap |
| `MapGraph.dfy`, `Submap.dfy` | the capped breadth-first graph distance, and the layout of a submap |
| `ShareLink.dfy`, `Succession.dfy` | the share-link codec, and carrying a selection to a newer snapshot |
| `CanonicalCell.dfy`, `Numbers.dfy` | the canonical serialization of a cell, and the decimal printer |
| `Ordering.dfy`, `Wrappers.dfy` | sorting over a total order, and `Option` |

The code that updates state is modelled by methods and classes that do the same (`MapRecords.Replayer`,
`MapStore.Store`, `MapGraph.Graph`, the loops and buffers). Each is proved against a specification function or
predicate, and the theorems are lemmas about that specification. Where the source nests two loops, the inner one is
sometimes a method of its own so that its invariants can be read separately.

Idealizations, used throughout:

- Floating-point numbers are exact reals, or exact decimals in `Numbers.dfy`. A quotient by zero is `None`.
- JSON values are a datatype with structural equality, in which a number is the decimal it denotes, and a record's op is
  the constructor of its payload.
- The version hash and the uid functions are parameters of which nothing is assumed. Tamper evidence is stated up to a
  collision among the records at hand. Theorems that need one identity per uid ask it of the adds of the contribution
  alone, which is to say that no two of them are a collision of a uid function
  (`Contributions.OneIdentityUnlessCollision`).
- In nearest-neighbour search and farthest-point sampling the vectors, distances and bounds are functions. The metric
  axioms, or the certified relation between bound and distance, are premises only where they are used; `PooledBound.dfy`
  proves that relation for symmetry-exact sets, any norm, and an exact distance that is the cost of some plan.
- Python's `sorted` is insertion sort over the same total order, which is determined because sorted arrangements are
  unique (`Ordering.SortedUnique`). The text of a sorted site list is a function of the list.

Code and documentation disagree in two places, and the model follows the code in both.

- The docstring of `omds/mapgraph.py` says two ids that share only their base name differ by the qualifier penalty. The
  code returns 0 instead when both fall back to one base node, and 1 when they do not both resolve.
  `MapGraph.QualifierPenalty` states exactly when the documented value is returned and
  `MapGraph.SharedBaseNodeIsNotPenalized` gives an input for which it is not.
- The docstring of `Store.propose` in `omai/store.py` says `verify` would surface a crash part-way through the pushes.
  It does not when the process stops between two pushes: `Proposals.CrashBetweenPushesIsSilent` proves that nothing is
  found then for a contribution of adds, and `Proposals.SilentCrash` gives an input. In general a store stopped between
  two pushes verifies clean exactly when every mentioned uid was added before (`MapStore.CleanIffNoDanglingUid`). One
  stopped inside a push does so exactly when no uid mentioned by the last record is unknown and the record changes
  nothing in the view, if neither mirror file was rewritten (`Proposals.CrashInsidePushShows`), or nothing in the
  edges, if only the first was (`Proposals.CrashBetweenFilesShows`).

The same contribution proposed again after such a stop is accepted exactly when what it still has to add is in one piece
(`Proposals.AcceptedAfterCrash`), and then ends where an uninterrupted run ends. It can be refused:
`Reproposal.RefusedSecondTime` gives an input.

## Model

| member | source | states |
|---|---|---|
| PettiforScale.SlotInvertible | docs/play/distance.js:11-24 | every element has a slot from 1 to 103 and no two share one: the slot gives the element back |
| ElementMover.FillAxis | docs/play/distance.js:55-62 | the axis holds each slot's share of the total amount, and is not a number exactly when there are parts whose amounts sum to zero |
| ElementMover.AddShares | docs/play/distance.js:60-60 | the in-place loop turns an axis of zeros into each slot's share of the total amount |
| ElementMover.CompElmd | docs/play/distance.js:54-69 | one pass of cumulative sums computes the sum of absolute prefix gaps between the two axes |
| OptimalTransport.NoPlanIsCheaper | docs/play/distance.js:65-68 | every transport plan between two axes costs at least the cumulative-sum value |
| OptimalTransport.NorthWestAttains | docs/play/distance.js:65-68 | for axes of non-negative masses with equal totals a transport plan exists whose cost is the cumulative-sum value |
| OptimalTransport.EmdIsOptimalTransport | docs/play/distance.js:65-68 | on axes of any length the cumulative-sum value is the minimum over all transport plans of mass times slot distance |
| ElementMover.AxisNormalized | docs/play/distance.js:55-62 | the shares of a composition with non-negative amounts and a positive total are non-negative and sum to one |
| ElementMover.FormulaDistanceIsOptimal | docs/play/distance.js:54-69 | for two formulas the page's value is that minimum between their normalized distributions |
| OptimalTransport.EmdIsMetric | omdc/registry.py:116 | the registry's metric claim: non-negative, symmetric, triangle inequality, zero exactly on equal axes |
| ElementMover.ZeroIffSameShares | omdc/registry.py:116 | distance zero exactly when every element has the same share of both compositions |
| ElementMover.FormulaUnitInvariant | docs/play/distance.js:55-62 | scaling all amounts by any non-zero factor leaves the axis, and so every distance, unchanged |
| ElementMover.DistanceIgnoresUnits | docs/play/distance.js:54-69 | multiplying all amounts of either composition by any non-zero factor leaves their distance unchanged |
| Funnel.FunnelSearch | omdc/index.py:27-51 | the k best of the candidates evaluated so far are kept; under a bound certified up to the margin the result is the k nearest keys with their exact distances, ascending and ties by key, the evaluated keys are exactly those whose bound the k-th best distance does not rule out, and for distinct keys the reported count is their number |
| Funnel.NearestAre | omdc/index.py:46-51 | the first k of all exact distances in sorted order are keys with their distances, in ascending order with ties by key, and no key left out comes before one of them |
| Funnel.KeepBest | omdc/index.py:46-48 | append, sort and truncate keeps the k best of everything seen, not only of the last k |
| Funnel.BoundsStayWithin | omdc/index.py:41-48 | a bound that was within the margin of the k-th best distance when it was met still is after that distance shrinks |
| Funnel.PrunedAreWorse | omdc/index.py:42-43 | stopping at the first ruled-out bound loses none of the k nearest |
| Funnel.EvaluatedExactly | omdc/index.py:41-48 | among keys sorted by bound, the evaluated ones are those within the margin of the k-th best distance |
| Funnel.EvaluationsCounted | omdc/index.py:49-50 | for distinct keys the number of exact evaluations is the number of keys whose bound is within the margin of the k-th best distance |
| PooledBound.CarriedIsDifference | omdc/metrics/pooled.py:3-9 | the displacements of a plan, weighted by mass, add up to the difference of the weighted means |
| PooledBound.MeansAreNoFarther | omdc/metrics/pooled.py:3-9 | for any norm the distance between the weighted means is at most the cost of every plan between the two weighted sets |
| PooledBound.LatentBoundCertified | omdc/metrics/pooled.py:27-32 | on symmetry-exact sets the latent bound is certified at margin one, as the search needs it |
| PlanMetric.Glue | omdc/metrics/ot.py:6-7 | two plans that meet in a middle set are glued into one from the first to the last, costing at most both |
| PlanMetric.DistanceTriangle | omdc/metrics/ot.py:6-7 | the least plan cost satisfies the triangle inequality |
| PlanMetric.DistanceSymmetric | omdc/metrics/ot.py:6-7 | the least plan cost is symmetric |
| PlanMetric.DistanceZeroIffSame | omdc/metrics/ot.py:18-20 | it is not negative, and zero exactly when the two lists give every vector the same weight |
| PlanMetric.DistanceWithinDiameter | omdc/metrics/ot.py:18-20 | for weights of total one it is at most the diameter of the ground space |
| Ordering.SortedUnique | omdc/index.py:38-47 | two sorted arrangements of the same elements under a total order are equal, so sorted() has one possible result |
| Ordering.StringLeIs | omdc/index.py:38-47 | texts compare as the language compares them: a prefix comes first, and otherwise the smaller character at the first difference |
| Ordering.OnceInOrder | docs/assets/share.js:174-174 | a duplicate-free list keeps its values in the order in which they were first met |
| FarthestPoint.Fps | omdc/envset.py:54-62 | the selection is k picks in ascending order: the vector of largest norm, then always a point farthest from the picks so far |
| FarthestPoint.PicksSeparated | omdc/envset.py:57-61 | any two picks are at least as far apart as any point still is from the picks |
| FarthestPoint.WithinTwiceOptimal | omdc/envset.py:54-62 | if any k centres in the metric space cover the points within r, the k greedy picks cover them within 2r |
| FarthestPoint.SelectionWithinTwiceOptimal | omdc/envset.py:62-62 | the same bound for the selection that is returned, which is in ascending order |
| FarthestPoint.NearestLabelIsNearest | omdc/envset.py:82-82 | the assignment sends every atom to a nearest selected atom |
| FarthestPoint.CountIs | omdc/envset.py:83-83 | the count of a selected atom is how often its number occurs among the labels |
| FarthestPoint.CountsAddUp | omdc/envset.py:83-83 | the counts per selected atom sum to the number of atoms |
| FarthestPoint.GroupSizesAreCounts | omdc/envset.py:71-72 | the sizes of the symmetry classes are the counts of atoms labelled by class |
| FarthestPoint.WeightsSumToOne | omdc/envset.py:84-84 | dividing counts by their sum gives weights of total one |
| FarthestPoint.Select | omdc/envset.py:66-83 | the three-way choice of representatives, with weights that count the atoms each one stands for |
| FarthestPoint.Embed | omdc/envset.py:65-84 | every atom is assigned to exactly one selected atom and each weight is how often that atom occurs in the assignment, divided by the number of atoms |
| BreadthFirst.NextLevel | omds/mapgraph.py:57-58 | when the first queued node is one level further, everything within that level is discovered |
| BreadthFirst.Enqueue | omds/mapgraph.py:64-66 | a new node joins the queue at its exact depth and the frontier invariant is kept |
| BreadthFirst.Found | docs/assets/share.js:166-171 | a goal met next to the node at hand is one at the fewest steps |
| BreadthFirst.Exhausted | omds/mapgraph.py:57-67 | an empty queue means that no goal is within the cap |
| BreadthFirst.CutKeepsGoals | docs/assets/share.js:167-170 | leaving out arrows next to a goal changes neither whether a goal is reached nor which is nearest |
| MapGraph.Graph.constructor | omds/mapgraph.py:28-39 | adjacency holds the listed nodes, and two nodes are neighbours exactly when some link names both; a missing file gives the empty graph |
| MapGraph.Resolves | omds/mapgraph.py:41-47 | an id stands for the node of that id, or else for the node whose id is what precedes its first bracket, and for none if neither exists |
| MapGraph.Graph.Hops | omds/mapgraph.py:49-67 | the length of a shortest undirected path between the resolved ids when it is at most the cap, one more than the cap otherwise, None when an id does not resolve |
| MapGraph.Graph.Search | omds/mapgraph.py:53-67 | the breadth-first search returns that capped shortest length between two nodes |
| MapGraph.Graph.Visit | omds/mapgraph.py:61-66 | the inner loop finds the goal one level further or keeps the frontier invariant with all neighbours discovered |
| MapGraph.Graph.Distance | omds/mapgraph.py:69-82 | the normalized, penalty-capped score of that hop count |
| MapGraph.DistanceIsHops | omds/mapgraph.py:69-82 | between two different nodes the distance is a sixth of the shortest length, at most one, and 0.15 when the ids have one base |
| MapGraph.ShortestUnique | omds/mapgraph.py:49-67 | the capped shortest length is determined by the graph and the two nodes |
| MapGraph.HopsSymmetric | omds/mapgraph.py:49-67 | the capped length is the same in both directions |
| MapGraph.HopsTriangle | omds/mapgraph.py:49-67 | capped lengths satisfy the triangle inequality, also where the cap bites |
| MapGraph.DistanceSymmetric | omds/mapgraph.py:69-82 | distance is symmetric and within [0, 1] |
| MapGraph.DistanceZero | omds/mapgraph.py:69-82 | distance is zero exactly for equal ids or ids that resolve to one node, and has one possible value |
| MapGraph.QualifierPenalty | omds/mapgraph.py:1-9 | two different ids with one base differ by the penalty if and only if they resolve to two different nodes; they are at distance zero exactly when they resolve to one node and at distance one exactly when one does not resolve |
| MapGraph.SharedBaseNodeIsNotPenalized | omds/mapgraph.py:79-82 | an input on which the documented penalty is not returned |
| Submap.RelaxRound | omai/submap.py:208-212 | one pass over the sorted edges keeps every depth the length of some chain and moves every edge's target past its source's depth at the start of the round |
| Submap.Relax | omai/submap.py:202-214 | the depths are those after one pass over the sorted edges per box, although the rounds stop early and also in cyclic graphs; every depth is attained by a chain and at most the number of boxes; without cycles every depth is the exact longest-chain length, and depths grow along every edge exactly when there is no cycle |
| Submap.ChainFits | omai/submap.py:204-207 | without cycles no chain has more boxes than are shown, so that many rounds are enough |
| Submap.Place | omai/submap.py:216-221 | every shown box gets the place of its tier's column and of its rank in that column |
| Submap.PlaceColumn | omai/submap.py:219-221 | one column from top to bottom, keeping the boxes already placed |
| Submap.Layout | omai/submap.py:185-221 | a box is shown exactly if it is a node and is lit or, with fewer than four lit nodes, leads to a lit one or follows one when at most six do; an edge is drawn exactly if it is a link between shown boxes; columns are the tiers of the shown boxes by rank and then by name; boxes sit in the column of their tier by depth and then by id, with no gap |
| Submap.ShownAre | omai/submap.py:188-194 | the shown ids are the lit nodes and, with fewer than four of those, the nodes a link takes to a lit one and the at most six that a link reaches from one |
| Submap.EdgesAre | omai/submap.py:187-195 | the drawn edges are the links with both ends shown |
| Submap.ColumnsAre | omai/submap.py:196-197 | the columns are the tiers of the last nodes with the shown ids, Other standing for a missing one, ascending by the order of the last tier of that name, its index, or a million, and then by name |
| Submap.EdgesOrdered | omai/submap.py:209-209 | a pass visits the edges by source and then by target |
| Submap.PlacedSeats | omai/submap.py:215-221 | a placed box stands in the column of its tier, above another exactly when its depth is smaller or equal with the smaller id, and no row of a column is left empty |
| Submap.LowerIsDeeper | omai/submap.py:215-215 | inside a column depths do not decrease from top to bottom |
| Submap.EdgesRunDown | omai/submap.py:198-221 | when depths grow along edges, every edge inside one column that is no self-loop runs from a higher box to a lower one with room between |
| Submap.BoxesDisjoint | omai/submap.py:216-221 | no two boxes overlap or touch |
| ShareLink.Encode | omai/snapshots.py:103-111 | the hex text of the shortest buffer whose set bits are exactly the positions of the selected ids, the error on an empty selection |
| ShareLink.EncodedSpells | omai/snapshots.py:103-111 | position i of the text, the highest bit of its first digit being position 0, is set exactly if node i is selected |
| ShareLink.DecodePython | omai/snapshots.py:114-123 | accepts exactly the well-formed, in-range texts and returns the ids at the set bits in order |
| ShareLink.DecodeJavaScript | docs/assets/share.js:22-32 | the position-by-position decoder accepts the same texts with the same result |
| ShareLink.DecodedSpells | docs/assets/share.js:22-32 | the nodes decoded from an accepted text are those whose positions are set in it, counted from the highest bit of the first digit |
| ShareLink.DecodeEncode | omai/snapshots.py:103-123 | decoding an encoded selection gives the selected set back in snapshot order |
| ShareLink.EncodeDecode | docs/assets/share.js:1-5 | re-encoding what an accepted text selects gives the very text back |
| ShareLink.OneSpelling | docs/assets/share.js:1-5 | two accepted texts of one selection are equal |
| Succession.Expand | docs/assets/share.js:167-170 | the inner loop stops at the first live successor: the id of a nearest one, or, when that id is empty, none and the search goes on with the uids discovered so far |
| Succession.FindLive | docs/assets/share.js:164-171 | the search stops even when succession is cyclic, finds the id of a live uid at the fewest followed steps, and fails exactly when no live uid with an id is reached by them |
| Succession.SearchIsPlainIff | docs/assets/share.js:166-171 | the followed steps miss no reachable live uid, whatever the supersede records, if and only if no live uid has the empty string for its id |
| Succession.ToLatest | docs/assets/share.js:152-176 | on every input the four lists are those of the fates of the ids: kept by uid, replaced by a nearest live successor among the followed steps, or removed; a selected node whose uid is in the new snapshot is carried to the id it has there and listed as renamed exactly when that differs, and none whose uid is there is removed |
| Succession.UidLookedUp | docs/assets/share.js:153-157 | the uid of an id is that of the last old node with the id |
| Succession.IdLookedUp | docs/assets/share.js:153-159 | the id of a uid is that of the last new node with the uid |
| Succession.UidsCarry | docs/assets/share.js:156-163 | the four lists of any fates carry a selected node whose uid is in the new snapshot to the id it has there |
| Succession.FatesArePlain | docs/assets/share.js:151-171 | without empty ids the followed steps are no restriction: the fates are those of all supersede records |
| Succession.FatesPartition | docs/assets/share.js:156-173 | an id is listed as removed exactly when its uid is not live and no live uid with an id is reachable from it, as superseded exactly when one is but its own uid is not live |
| Succession.CarriedTo | docs/assets/share.js:158-172 | a kept id was carried to the id its uid now has and is listed as renamed exactly when that differs; a superseded one to the id of a live uid at the fewest supersede steps |
| Succession.NothingElseCarried | docs/assets/share.js:158-174 | the new selection has no id twice and has exactly the ids that some id of the old one was carried to |
| CanonicalCell.Canonicalize | omai/configurations.py:171-181 | the loops return the least text over all choices of the anchor site |
| CanonicalCell.OrderForgotten | omai/configurations.py:166-181 | reordering the sites does not change the text |
| CanonicalCell.PlacementForgotten | omai/configurations.py:166-181 | a rigid translation of the cell and whole-cell shifts of single sites do not change the text |
| CanonicalCell.EqualTextsMatch | omai/configurations.py:171-181 | equal texts mean that, from some site of each cell, the rounded offsets with their species agree as multisets |
| CanonicalCell.EqualTextsPair | omai/configurations.py:171-181 | equal texts mean that the sites of the two cells pair up one to one, of equal species and, seen from one site of each, at offsets that differ by whole cells up to 1e-5 of a cell edge |
| CanonicalCell.RoundedNearest | omai/configurations.py:176-177 | a rounded offset is, up to whole cells, the multiple of 1e-5 nearest to the offset, a tie going to the even one |
| CanonicalCell.RowLeIs | omai/configurations.py:178-178 | rows are ordered by species and then by each coordinate in turn |
| Numbers.UnsignedReads | omai/map_data.py:704-713 | reading each of the five printed forms back gives the digits times their power of ten |
| Numbers.UnsignedForm | omai/map_data.py:704-713 | with k digits and the point after the n-th: n digits for k <= n <= 21, k digits around a point for 0 < n < k, a zero and a point in front for -6 < n <= 0, and otherwise k digits, e and the signed exponent n - 1 without leading zeros |
| Numbers.PrintedTextReadsBack | omai/map_data.py:693-714 | for every non-zero decimal without superfluous zero digits the printed text denotes exactly that value |
| Numbers.RoundHalfUp | omai/map_data.py:724-725 | the chosen multiple is within half a unit, ties going up |
| Numbers.CardNormal | omai/map_data.py:717-725 | the rounded number is again a normal decimal of the same sign and of the quantized value |
| Numbers.CardWithinHalfUnit | omai/map_data.py:717-725 | the card text denotes a value within half a unit, a tie going away from zero |
| Numbers.SixthDigit | omai/map_data.py:723-725 | that unit is the one of the sixth significant digit: the number is at least 100000 and less than 1000000 of it |
| MapRecords.Replayer.constructor | omai/store.py:252-255 | a replay starts from the empty view with no findings |
| MapRecords.Replayer.Mark | omai/store.py:103-124 | one entry, node before edge, gets the mark; an unknown uid changes nothing and is noted |
| MapRecords.Replayer.MarkAll | omai/store.py:135-149 | all named entries in order, each unknown one noted |
| MapRecords.Replayer.Apply | omai/store.py:79-152 | the view in place becomes the specified view after the record, and the unknown uids it mentions are noted |
| MapRecords.NodeAfter | omai/store.py:91-149 | a node after one record is a fresh entry if the record adds it, has the merged metadata, the mark or the uids the record writes if the record names it, and is as before otherwise |
| MapRecords.EdgeAfter | omai/store.py:96-149 | the same of an edge, except that a uid that is also a node names the node |
| MapRecords.AppliedIds | omai/store.py:91-149 | only adds change which identities the view holds under which uid |
| MapRecords.AppliedConcat | omai/store.py:252-258 | replaying two logs one after the other is replaying them joined |
| Gates.CheckLocal | omai/gates.py:77-121 | lists what a per-record gate says of each record, record by record |
| Gates.LocalMembers | omai/gates.py:270-291 | such a gate reports exactly what it objects to in some record |
| Gates.CheckIdentity | omai/gates.py:128-166 | lists the mismatched uids and the collisions in record order and collects exactly the exact-convergence no-ops |
| Gates.IdentityMembers | omai/gates.py:154-165 | a mismatch is reported for exactly the adds whose uid is not that of their identity, a collision for exactly those whose uid is stored with another identity |
| Gates.CheckReachability | omai/gates.py:173-192 | lists the unusable endpoints in record and endpoint order, and nothing exactly when every input and output of every added edge is stored or added by an earlier record |
| Gates.ReachabilityMembers | omai/gates.py:182-191 | exactly the inputs and outputs of an added edge that are neither stored nor added by an earlier record are reported |
| Gates.ReachabilitySilent | omai/gates.py:185-191 | the list is empty exactly when every input and output of every added edge is stored or added by an earlier record |
| Gates.InputsFirst | omai/gates.py:185-191 | the unusable inputs of an edge are reported before its unusable outputs |
| Gates.Collect | omai/gates.py:201-217 | gathers exactly the added nodes and edge endpoints of the records that are not no-ops |
| Gates.BuildAdjacency | omai/gates.py:242-248 | two different nodes are adjacent exactly when one edge lists both |
| Gates.Component | omai/gates.py:249-257 | the stack search returns a set closed under the edges, every member of which is reached from the start |
| Gates.ComponentDecides | omai/gates.py:258-261 | that set is everything if and only if any two nodes are joined by a path |
| Gates.CheckConnectivity | omai/gates.py:199-263 | lists exactly a contribution that touches no stored node, then one whose additions are not weakly connected; one without adds passes |
| Contributions.ValidateContribution | omai/gates.py:335-356 | the problems of the six gates in the order the gates run |
| Contributions.NoProblemsIffAdmissible | omai/gates.py:335-342 | nothing is reported exactly when the contribution passes the identity, reachability and connectivity conditions and the per-record gates are silent |
| Admission.NoProblemsIffAcceptable | omai/gates.py:335-356 | in terms of the records alone: nothing is reported exactly when no gate objects to a record, every uid is that of its identity and free or stored with that identity, every input and output of every added edge is stored or added earlier, and, if anything is new, a new edge has a stored node at an end and new edges lead from every new node and end to every other |
| Contributions.OneIdentityUnlessCollision | omai/gates.py:152-165 | among adds that pass the identity gate one uid stands for two identities exactly when two of them are a collision of a uid function |
| Contributions.NewEdgeSurvives | omai/gates.py:152-165 | when no two adds of the contribution give one uid to two identities, the edge that was checked is the edge that is stored, whatever later records add |
| Contributions.NodesGained | omai/store.py:229-239 | the view gains exactly the added nodes that are not no-ops |
| Contributions.LinksAfter | omai/store.py:229-239 | the view gains exactly the links of the added edges that are not no-ops |
| Contributions.Splice | omai/gates.py:226-261 | two connected graphs that share a node are connected together |
| Contributions.MapStaysConnected | omai/gates.py:226-261 | if stored edges lead over their inputs and outputs from every node to every other, and those are all nodes, the same holds after every admissible contribution |
| Contributions.EveryPrefixEdgeClosed | omai/store.py:214-218 | after every prefix of the pushes every input and every output of every edge is a node of the view |
| Reproposal.ReproposalIsNoOp | omai/store.py:209-212 | an admissible contribution of adds is admissible again after it landed, and then pushes nothing |
| Reproposal.ReadmittedIffRestConnected | omai/store.py:214-238 | after any number of its pushes an admissible contribution is admissible again if and only if what is still to be added is connected and has an end; every other gate passes |
| Reproposal.RefusedAsDisconnected | omai/gates.py:226-263 | when it is not, disconnectedness is the one problem reported |
| Reproposal.ResumedLandsTheSame | omai/store.py:224-240 | an interrupted run that is taken up again stores the same elements with the same identities as one uninterrupted run |
| Reproposal.RefusedSecondTime | omai/store.py:214-238 | three nodes and the edges chaining them to a stored one, the middle edge first: accepted, stopped after four pushes, and then refused as disconnected |
| MapStore.Store.constructor | omai/store.py:164-168 | a new store is empty and valid |
| MapStore.Store.Replay | omai/store.py:252-258 | the view and the unknown uids of a prefix of the log |
| MapStore.FirstWith | omai/store.py:269-272 | the index of the first record with a version, and none exactly when no record has it |
| MapStore.Store.Push | omai/store.py:186-199 | appends one chained, numbered record, keeps the log before it, rewrites both mirror files to the replayed view, and keeps a valid store valid |
| MapStore.Store.Read | omai/store.py:260-275 | the replay up to the first record of that version, None for an unknown version |
| MapStore.Store.Diff | omai/store.py:279-295 | the records after one version up to another, None when a version is unknown |
| MapStore.Store.Verify | omai/store.py:299-352 | the findings in order: hash, chain and numbering per record, unknown uids, and each mirror file that is missing, not valid JSON or stale |
| MapStore.FileFindingsAre | omai/store.py:336-350 | a mirror file is reported once, as missing, as not JSON or as stale, and not at all exactly if it holds the replay |
| MapStore.UnknownMembers | omai/store.py:110-149 | the unknown uids found are exactly those a record names and no earlier record added, each with the number of its record |
| MapStore.Store.PushNext | omai/store.py:234-239 | one push of the loop: one record more, signed with the reason made from its op and target |
| MapStore.ReasonsAre | omai/store.py:234-239 | the reason is the prefix, the op and the first twelve characters of the uid, or of the first old uid of a supersede |
| MapStore.Store.PushKept | omai/store.py:229-240 | the loop appends exactly the records that are not no-ops, in order, and returns the last version |
| MapStore.Store.Propose | omai/store.py:201-240 | an inadmissible contribution changes nothing and reports exactly the problems in order; an admissible one appends exactly its records that are not no-ops, with author, date and reason; a valid store stays valid |
| MapStore.HeadFixesLog | omai/store.py:311-330 | two logs that pass the hash, chain and numbering checks and end in one version are equal record for record, unless two of their records are a collision of the hash |
| MapStore.TamperingShows | omai/store.py:311-330 | changing any record of an intact log fails one of those checks, changes the head, or shows a collision |
| MapStore.ChainFindingsEmpty | omai/store.py:311-330 | no chain finding exactly when every record has its own hash, its predecessor's version and the next number |
| MapStore.VerifyOfPushedStore | omai/store.py:299-352 | a store that was only pushed to has no hash, chain, numbering or mirror finding; before the first push both mirror files are missing |
| MapStore.KnownIffAdded | omai/store.py:79-117 | a uid is known to the replay of a prefix exactly when a record of that prefix added it |
| MapStore.NodeAsLogged | omai/store.py:252-258 | a replayed node has the identity of its last add, is deprecated exactly if a later record deprecates it, and is superseded by what the last later supersede of it names |
| MapStore.RetiredAsLogged | omai/store.py:126-141 | a replayed node is retired exactly if since its last add it was deprecated or its last supersede names a successor |
| MapStore.CleanIffNoDanglingUid | omai/store.py:332-333 | such a store verifies clean exactly when every uid that is edited, deprecated, superseded or equated was added by an earlier record |
| MapStore.DiffConnectsReads | omai/store.py:279-295 | applying the diff of two versions, or of the genesis version and one, to the view at the first gives the view at the second when that is not earlier, and the diff is empty exactly when the second is not later |
| MapStore.DiffIsDefined | omai/store.py:285-294 | there is a diff exactly when the first version is the genesis version or occurs in the log and the second occurs in it |
| Proposals.CrashLeavesEdgesClosed | omai/store.py:229-240 | stopping after any number of a proposal's pushes leaves no edge with an input or output that is no node |
| Proposals.CrashBetweenPushesIsSilent | omai/store.py:214-218 | after any number of completed pushes of an accepted contribution of adds, onto a log without dangling uids, verify finds nothing |
| Proposals.SilentCrash | omai/store.py:214-218 | for any uid functions that tell the two nodes apart: a map, an accepted contribution of two adds and the store stopped after the first push, which verifies clean |
| Proposals.CrashInsidePushShows | omai/store.py:196-199 | a store stopped after the append and before its mirror files are rewritten verifies clean exactly when it was not empty, the last record leaves the view as it was and mentions only known uids |
| Proposals.CrashBetweenFilesShows | omai/store.py:242-248 | a store stopped between the writes of its two mirror files verifies clean exactly when it was not empty, the last record leaves the edges as they were and mentions only known uids |
| Proposals.ProposalKeepsMapConnected | omai/store.py:224-240 | a landed proposal keeps the whole stored map weakly connected and edge-closed |
| Proposals.ProposeAgain | omai/store.py:209-212 | proposing an accepted contribution of adds twice: the second lands with the same head and an unchanged log |
| Proposals.AcceptedAfterCrash | omai/store.py:214-240 | a proposal stopped after some of its pushes is accepted again exactly when the rest is in one piece, and both runs together store what one uninterrupted run stores |
| Sync.FirstPass | omai/sync.py:112-124 | finds the elements the store lacks, indexes them by anchor, and lists the metadata edits |
| Sync.MetaDiffIs | omai/sync.py:83-89 | an edit has exactly the compared keys whose values differ, a missing key reading as null, each with the Python value |
| Sync.EditsSay | omai/sync.py:119-124 | the edits are exactly those of the stored elements whose compared metadata differs, with exactly the differing keys and the Python values |
| Sync.FirstUnclaimed | omai/sync.py:148-152 | the first unclaimed candidate of the n-th stale element of an anchor is the n-th new one of that anchor |
| Sync.SecondPass | omai/sync.py:141-165 | pairs or deprecates every stale element as that rule says |
| Sync.ComputeSync | omai/sync.py:92-172 | the two passes compute the four buckets of the specification |
| Sync.NewElementsPartitioned | omai/sync.py:126-130 | the add record of each new element is among the adds or its uid is the new side of a re-mint, never both, and no uid is the new side of two |
| Sync.StaleElementsPartitioned | omai/sync.py:126-165 | each stale element is the old side of a re-mint or deprecated, never both, and nothing else is |
| Sync.RemintsPerAnchor | omai/sync.py:148-165 | for each anchor the re-mint list has as many entries whose new side is of that anchor as the smaller of its stale and new elements |
| Sync.RemintsShareAnchor | omai/sync.py:126-130 | a re-mint pairs a stale element with a new one of the same anchor, under the stored name unless that is missing, null or otherwise falsy |
| Sync.EmptyIffInSync | omai/sync.py:92-172 | nothing is proposed exactly when every element is stored with the same value under every compared key, a missing key reading as null, and every other stored element is retired |
| SyncConverges.MatchedAfter | omai/store.py:119-124 | after a landing a stored element has its metadata with the edit merged in, however often the edit occurs |
| SyncConverges.StaleAfter | omai/sync.py:132-147 | a stale element is retired once a deprecation or supersede of it landed, and stays retired |
| SyncConverges.NewAfter | omai/store.py:91-101 | a new element is stored with its own metadata once its record landed |
| SyncConverges.SideConverges | omai/sync.py:132-139 | one kind of element is in sync after a landing that serves it |
| Landing.EveryRecordLands | omai/sync.py:123-169 | each proposed record concerns a uid in the right state: an add an unknown one, an edit a produced stored one, a retirement a stored one no longer produced |
| Landing.LandingConverges | omai/sync.py:132-139 | after the adds, edits, deprecations and, per re-mint, the new element and a supersede record went through the store's replay in any order, the next diff is empty |
| InSync.NothingProposedIff | omai/sync.py:92-172 | of the stored map itself: nothing is proposed exactly when every node and edge of the layer is stored under its uid with the same values under the compared keys, and every other stored one is deprecated or superseded |
| InSync.RemintPairsIdentities | omai/sync.py:68-80 | a re-mint pairs a stored node with a node of the layer of the same quantity, or a stored edge with one of the same primary output |
| InSync.PushedLandingInSync | omai/sync.py:132-139 | once every record of a proposal has been pushed to the store, in any order, every element of the layer is stored with the same values under the compared keys and every other stored element is deprecated or superseded |
| SyncApply.SamePairing | omai/sync.py:148-165 | with the unclaimed new elements gone, every stale element is paired or deprecated as before |
| SyncApply.ElementAfter | omai/sync.py:112-124 | after the adds and edits an element is stored unless a re-mint claims it, and a stored one needs no edit |
| SyncApply.ApplyLeavesTheRest | omai/sync.py:200-203 | after the adds and edits were pushed, in any order, the next proposal has neither and has the same deprecations and re-mints in the same order |
| SyncApply.Run | omai/sync.py:213-249 | which of the five outcomes occurs; nothing is pushed unless adds and edits are proposed and accepted, and then exactly those are |
| SyncApply.AppliedThenDiffed | omai/sync.py:200-249 | after a run of --apply that landed, the next proposal holds exactly the deprecations it left out |
| ExternalSolve.Round | omai/external_solve.py:403-412 | one round stays within what is downstream and either reaches something new or leaves a closed set |
| ExternalSolve.DownstreamOf | omai/external_solve.py:393-413 | the rounds end with the least set that holds the seeds and is closed under live edges |
| ExternalSolve.LeastClosedIsDownstream | omai/external_solve.py:393-413 | that set is path reachability over edges that are neither deprecated nor superseded, one reached input being enough |
| ExternalSolve.TargetDownstream | omai/external_solve.py:512-514 | the target check passes exactly when a live path leads from the outputs to the target |

## Left out

- Rounding, overflow, NaN and infinities of floating-point numbers: values are exact, see the idealizations above.
- Files, JSON text and parsing, git, argument parsing and printed text of the command lines, HTML and SVG.
- The internals of the registry, gauge and dimensional gates, of sha256, and of sympy, spglib and pymatgen.
- Gates.CheckLocal: what the registry, gauge and dimensional gates say of one record is a parameter of the model; their vocabulary tables and formula parsing are not modelled.
- MapStore.Store.Propose: records with an unknown op cannot be written down, since the op is a constructor.
- MapRecords.Replayer.Apply: a mark on an entry whose field is absent and one whose field is null are told apart by an option, not by JSON keys.
- Contributions.MapStaysConnected: links are counted from every stored edge, retired ones included, as the gate counts them.
- ShareLink.DecodeEncode: the ids of a snapshot are distinct, as its nodes are keyed by id; ShareLink.EncodeDecode and ShareLink.OneSpelling assume the same.
- ShareLink.Encode: the JavaScript encoder computes the same buffer line by line and is not repeated.
- FarthestPoint.Embed: the normalized and pooled vectors are not modelled, only the selection and its weights.
- CanonicalCell.Canonicalize: molecules, the lattice entry and the reduction to the primitive cell.
- Submap.Layout: width and height of the picture, curves and labels; `docs/assets/submap.js` ports the same layout.
- Numbers.CardWithinHalfUnit: the number rounded is the decimal of the float's exact binary value, while Numbers.PrintedTextReadsBack speaks of the decimal of its shortest text; the conversion of the rounded decimal to a float is exact here.
- PooledBound.LatentBoundCertified: the single-precision rounding of the pooled means and the energy distance of sampled sets, for which the source claims no certificate.
- PlanMetric.DistanceTriangle: that some plan has the least cost is the solver's contract, and the energy distance of sampled sets is not modelled.
- Landing.LandingConverges: the supersede records of re-mints are written by people; the theorem says what happens once they are. Node and edge uids are disjoint.
- ExternalSolve.TargetDownstream: the other checks of a request are one comparison each.
- `parseFormula`, curve and spectrum distances of `docs/play/distance.js`, and the index classes around the search.
- `omai/schema.py`, `omai/briefs.py`, `omai/render.py`, `omai/evidence.py`, `omai/lineages.py`, `omai/overlays.py`: field-by-field validation that would add only easy members.

# piqmee core in Dafny

This project models the sequential bookkeeping at the heart of piqmee, a
BEAST 2 package for phylogenies of quasi-species (haplotypes observed
several times, with incidences recording unsequenced copies). Four parts
are modelled:

- **Incidences** (`incidence.dfy`, module `Incidence`). The class
  `QuasiSpeciesIncidence` holds:
  - a sampling time;
  - an array of attachment times with a fill cursor;
  - a count;
  - a "list changed" flag;
  - the old/new changed-copy markers.

  It models the two constructors and the mutators, including
  `generateAttachmentTimes`.
- **Incidence operators** (`attachment_operators.dfy`). These are the three
  MCMC proposals that edit one incidence's time list in place:
  - random reattachment;
  - neighbour-bounded uniform move;
  - affine scale.

  The random draws are parameters.
- **Tree nodes and Wilson–Balding** (`quasi_species_node.dfy`,
  `wilson_balding.dfy`).
  - `QuasiSpeciesNode` carries two haplotype annotations and has deep copy,
    shallow copy and `assignFrom`.
  - The Wilson–Balding move has source and destination validity rules, an
    early rejection of root moves, and a new attachment time with the
    topology part of the Hastings ratio.
- **Tree likelihood bookkeeping** (`likelihood_specs.dfy`, `likelihood.dfy`).
  This is the machinery of `QuasiSpeciesTreeLikelihood3` around the
  likelihood core:
  - the per-leaf double-buffered log-scale cache, with its `leafIndex`
    selector;
  - its accumulation;
  - the category integration of the root partials;
  - the per-pattern log-likelihoods and the weighted total;
  - the constant-pattern list;
  - the rates of no change;
  - the CLEAN/DIRTY/FILTHY status of `traverse` and its branch-length cache;
  - `requiresRecalculation`;
  - `store`/`restore`;
  - the rescaling policy of `calculateLogP`;
  - `getTaxonIndex`.

  The specification functions live in `likelihood_specs.dfy`. The methods of
  the likelihood class (arrays, in-place loops, reference swaps) live in
  `likelihood.dfy` and are proved against those functions.

`numeric.dfy` holds the extended reals used for log values (`Ext`: negative
infinity or a finite value), plus finite sums.

`exp`, `log`, the likelihood core (`calculatePartials`,
`getLogScalingFactor`), the eigendecomposition and every random draw enter
the model as parameters.

## Model

| member | source | states |
|---|---|---|
| Incidence.QuasiSpeciesIncidence.constructor | src/piqmee/tree/QuasiSpeciesIncidence.java:16-25 | a new incidence has an array of `count` slots, cursor 0, changed flag false and both changed-copy markers at -1 |
| Incidence.QuasiSpeciesIncidence.Copy | src/piqmee/tree/QuasiSpeciesIncidence.java:27-33 | the copy has the same sampling time, count, cursor, flag and array contents in a fresh array (no aliasing); its markers stay -1 |
| Incidence.QuasiSpeciesIncidence.GetAttachmentTimesAndReset | src/piqmee/tree/QuasiSpeciesIncidence.java:39-42 | returns the same array object and clears the changed flag |
| Incidence.QuasiSpeciesIncidence.SetAttachmentTimes | src/piqmee/tree/QuasiSpeciesIncidence.java:44-48 | the array is replaced by the given one, the cursor moves to its length, and the flag is set |
| Incidence.QuasiSpeciesIncidence.AddAttachmentTime | src/piqmee/tree/QuasiSpeciesIncidence.java:50-54 | writes the slot under the cursor and advances it only while the cursor is below the last slot; the last slot is never written, and otherwise nothing changes |
| Incidence.QuasiSpeciesIncidence.SetCount | src/piqmee/tree/QuasiSpeciesIncidence.java:64-66 | only `count` changes, to the given value |
| Incidence.QuasiSpeciesIncidence.AddCount | src/piqmee/tree/QuasiSpeciesIncidence.java:68-70 | only `count` changes, to the 32-bit wrapped sum |
| Incidence.Wrap32 | src/piqmee/tree/QuasiSpeciesIncidence.java:68-70 | Java `int` addition: the result is a 32-bit value, and equals its input when that is already in range |
| Incidence.QuasiSpeciesIncidence.SetOldTimeOfChangedCopy | src/piqmee/tree/QuasiSpeciesIncidence.java:76-78 | only the old marker changes, to the given value |
| Incidence.QuasiSpeciesIncidence.SetNewTimeOfChangedCopy | src/piqmee/tree/QuasiSpeciesIncidence.java:84-86 | only the new marker changes, to the given value |
| Incidence.QuasiSpeciesIncidence.GenerateAttachmentTimes | src/piqmee/tree/QuasiSpeciesIncidence.java:92-104 | with the step (samplingTime - lowerBound)/(count - cursor): a record whose cursor is past 0 and at or beyond `count` is left as it is. Otherwise an empty record writes the step itself into slot 0, whatever `count` is (a negative count included), and every later slot up to `count` becomes its predecessor plus the step; the other slots are untouched. The result is the out-of-bounds error exactly when the slots to fill run past the array; the slots before the end are then filled and the cursor stops at the end, or at 1 for an empty array with an empty record |
| Incidence.QuasiSpeciesIncidence.ContinueRun | src/piqmee/tree/QuasiSpeciesIncidence.java:100-103 | the loop: each slot from the cursor up to `count` is its predecessor plus the step, the cursor stops at `count` or at the end of the array, whichever comes first, running out of array is the error, and no other slot changes |
| Incidence.GeneratedClosedForm | src/piqmee/tree/QuasiSpeciesIncidence.java:93-103 | closed form: generated slot i is the slot before the run plus (i - from + 1) steps, counting from 0 for an empty record |
| Incidence.GeneratedAscendingIff | src/piqmee/tree/QuasiSpeciesIncidence.java:93-103 | the generated run, with the slot it continues from, is strictly ascending exactly when the step is positive |
| Incidence.StepPositiveIff | src/piqmee/tree/QuasiSpeciesIncidence.java:93 | the step is positive exactly when the sampling time lies above the lower bound |
| Incidence.GenerateFromEmptyExample | src/piqmee/tree/QuasiSpeciesIncidence.java:92-104 | as written, sampling time 4, count 3 and lower bound 7 yield -1, -2, -3: descending, and outside the two bounds |
| Incidence.IntendedAttachmentTimes | src/piqmee/tree/QuasiSpeciesIncidence.java:88-91 | the documented generation: n times in equal steps between the lower bound and the sampling time, whichever is earlier, dividing the interval into n + 1 equal parts |
| Incidence.IntendedAttachmentTimesWithinBounds | src/piqmee/tree/QuasiSpeciesIncidence.java:88-91 | for either order of the two bounds, every intended time lies between them; when they differ, the times are strictly ascending and strictly inside the interval |
| Incidence.IntendedScenario | src/piqmee/tree/QuasiSpeciesIncidence.java:88-91 | sampling time 4, lower bound 7, three times: the intended generation gives 4.75, 5.5 and 6.25 |
| AttachmentOperators.FirstOutside | src/piqmee/operators/QuasiSpeciesIncidenceAttachmentRandom.java:55-56 | the exit of a redraw loop: the first draw outside the excluded set, with every earlier draw inside it |
| AttachmentOperators.RandomNewTime | src/piqmee/operators/QuasiSpeciesIncidenceAttachmentRandom.java:61-66 | the new time lies in [t[minIdx], t[minIdx+1]); it is the draw when the draw is new to the list, and the midpoint otherwise |
| AttachmentOperators.AttachmentRandomProposal | src/piqmee/operators/QuasiSpeciesIncidenceAttachmentRandom.java:35-83 | returns 0 with no incidences. A list of fewer than two times is the `nextInt` error, and an empty interval [tMin, tMax) is the `nextDouble` error; both leave the incidence untouched. A two-time list whose first time is selected, where the source's redraw loop never ends, is rejected with negative infinity. Otherwise: the lower bound is the first drawn index other than the selected one; only the selected slot changes, in place and without re-sorting; the old and new values go to the markers; the flag is set and the cursor is at the length; the ratio is ln(tMax - tMin) - ln(oldTmax - oldTmin) with neighbour indices clamped |
| AttachmentOperators.DrawLowerBound | src/piqmee/operators/QuasiSpeciesIncidenceAttachmentRandom.java:53-56 | the redraw loop returns the first drawn lower-bound index that is not the selected index |
| AttachmentOperators.RandomTwoTimesAtFirstHangs | src/piqmee/operators/QuasiSpeciesIncidenceAttachmentRandom.java:55-56 | as written, with two times and the first one selected, no stream of draws ends the redraw loop, because `nextInt(1)` only yields the selected index |
| AttachmentOperators.OtherLowerBoundIff | src/piqmee/operators/QuasiSpeciesIncidenceAttachmentRandom.java:53-56 | some stream of draws ends the redraw loop exactly when the list has at least three times, or two times with the second one selected |
| AttachmentOperators.Reattach | src/piqmee/operators/QuasiSpeciesIncidenceAttachmentRandom.java:75-79 | the common end of both reattachment moves: the same array with only the selected slot replaced, the old and new values in the markers, the flag set, the cursor at the length and the count unchanged |
| AttachmentOperators.RandomMoveCanBreakOrder | src/piqmee/operators/QuasiSpeciesIncidenceAttachmentRandom.java:74-79 | the random move does not keep a sorted list sorted: moving the first of [1, 2, 3] into [2, 3) gives an unsorted list |
| AttachmentOperators.RandomMoveThenEmptyInterval | src/piqmee/operators/QuasiSpeciesIncidenceAttachmentRandom.java:58-62 | on the list [2.5, 2, 3] that move leaves behind, the interval from slot 0 to slot 1 and the neighbour interval of slot 0 are both empty, so the next `nextDouble` throws |
| AttachmentOperators.RandomMoveInOrderKeepsOrder | src/piqmee/operators/QuasiSpeciesIncidenceAttachmentRandom.java:74-79 | with the new time sorted into place, the random move keeps a strictly ascending list strictly ascending and of the same length, and the neighbour interval of every slot, which the next uniform move draws from, stays non-empty |
| AttachmentOperators.AttachmentUniformProposal | src/piqmee/operators/QuasiSpeciesIncidenceAttachmentUniform.java:34-69 | returns 0 with no incidences. An empty list is the `nextInt` error, and an empty neighbour interval (always the case for one time) is the `nextDouble` error; both leave the incidence untouched. Otherwise it returns 0, the slot gets the first draw that is not already in the list, nothing else in the list changes, the markers record the old and new value, the flag is set and the cursor is at the length |
| AttachmentOperators.UniformNewTimeBounds | src/piqmee/operators/QuasiSpeciesIncidenceAttachmentUniform.java:53-60 | the accepted time lies between the clamped neighbours and differs from every time in the list |
| AttachmentOperators.UniformMovePreservesOrder | src/piqmee/operators/QuasiSpeciesIncidenceAttachmentUniform.java:53-63 | a strictly ascending list of at least two times stays strictly ascending after the uniform move |
| AttachmentOperators.SingleTimeRecordFaults | src/piqmee/operators/QuasiSpeciesIncidenceAttachmentRandom.java:50-56 | as written, on a record of one time both reattachment moves end in an error (`nextInt(0)` in the random move, `nextDouble(t, t)` in the uniform move) instead of a rejection, and the record is untouched |
| AttachmentOperators.RandomProposalRejectingSingle | src/piqmee/operators/QuasiSpeciesIncidenceAttachmentRandom.java:35-83 | the random move with a one-time record rejected with negative infinity instead of faulting, and left untouched; every other record gets the outcome and the new state of `AttachmentRandomProposal` |
| AttachmentOperators.UniformProposalRejectingSingle | src/piqmee/operators/QuasiSpeciesIncidenceAttachmentUniform.java:34-69 | the uniform move with a one-time record rejected with negative infinity instead of faulting, and left untouched; every other record gets the outcome and the new state of `AttachmentUniformProposal` |
| AttachmentOperators.ScaleFactorInRange | src/piqmee/operators/QuasiSpeciesIncidencesScale.java:19-20 | for u in [0, 1] and s >= 1, f = u·s + (1-u)/s lies in [1/s, s], so it is positive |
| AttachmentOperators.ScaleFactorBetween | src/piqmee/operators/QuasiSpeciesIncidencesScale.java:19-20 | for u in [0, 1] and any positive s (the operator does not check s >= 1), f = u·s + (1-u)/s is positive and lies between s and 1/s: in [s, 1/s] when s <= 1 and in [1/s, s] when s >= 1 |
| AttachmentOperators.Scaled | src/piqmee/operators/QuasiSpeciesIncidencesScale.java:76-79 | scaling keeps the list length |
| AttachmentOperators.ScaleProposal | src/piqmee/operators/QuasiSpeciesIncidencesScale.java:47-82 | returns 0 with no incidences, and the `get(0)` error for an empty list. It returns negative infinity and leaves the list untouched when the scaled first time is below the sampling time or the unscaled last time is at or above the origin. Otherwise every time is multiplied by f in place, and the ratio is n·ln f |
| AttachmentOperators.ScaleTimes | src/piqmee/operators/QuasiSpeciesIncidencesScale.java:76-79 | the loop multiplies every time by f in place and adds ln f once per time |
| AttachmentOperators.ScalePreservesOrder | src/piqmee/operators/QuasiSpeciesIncidencesScale.java:76-79 | with f > 0, a strictly ascending list stays strictly ascending |
| AttachmentOperators.ScaleAcceptsPastOrigin | src/piqmee/operators/QuasiSpeciesIncidencesScale.java:69-73 | as written, [1, 2] scaled by 2 with origin 3 is accepted, although its last time becomes 4 |
| AttachmentOperators.ScaleIntendedKeepsBounds | src/piqmee/operators/QuasiSpeciesIncidencesScale.java:69-79 | with the documented test on scaled times, an accepted scale of an ascending list leaves every time in [samplingTime, origin) |
| AttachmentOperators.ValidateScaleFactor | src/piqmee/operators/QuasiSpeciesIncidencesScale.java:40-43 | initialisation succeeds exactly when a scale factor is given, and then returns it |
| QuasiSpeciesTreeNode.QuasiSpeciesNode.SetHaploAboveName | src/quasispeciestree/tree/QuasiSpeciesNode.java:32-42 | the getter returns the value set; the continuing haplotype is unchanged |
| QuasiSpeciesTreeNode.QuasiSpeciesNode.SetContinuingHaploName | src/quasispeciestree/tree/QuasiSpeciesNode.java:51-59 | the getter returns the value set; the haplotype above is unchanged |
| QuasiSpeciesTreeNode.QuasiSpeciesNode.Copy | src/quasispeciestree/tree/QuasiSpeciesNode.java:107-127 | a fresh, well-formed subtree with a null parent whose value is `Copied` of the original: the same data at every node, each child linked back to its new parent, and a right child copied only when a left child exists; existing nodes are untouched |
| QuasiSpeciesTreeNode.QuasiSpeciesNode.ShallowCopy | src/quasispeciestree/tree/QuasiSpeciesNode.java:73-94 | like Copy, but the new root keeps the original's parent link; both haplotype fields are preserved |
| QuasiSpeciesTreeNode.QuasiSpeciesNode.CopyUnder | src/quasispeciestree/tree/QuasiSpeciesNode.java:107-127 | the recursive copy with a given parent link: fresh, well-formed, value `Copied` of the original |
| QuasiSpeciesTreeNode.QuasiSpeciesNode.CopyChildrenUnder | src/quasispeciestree/tree/QuasiSpeciesNode.java:118-125 | the left child is copied when present, and the right child only when a left one exists too; the copies are disjoint and linked to the new parent |
| QuasiSpeciesTreeNode.CopiedIdentityIff | src/quasispeciestree/tree/QuasiSpeciesNode.java:118-125 | a copy equals its original exactly when no node has a right child without a left one |
| QuasiSpeciesTreeNode.CopiedIsLeftFirst | src/quasispeciestree/tree/QuasiSpeciesNode.java:118-125 | every copy is left-first, so copying a copy changes nothing more (idempotence) |
| QuasiSpeciesTreeNode.QuasiSpeciesNode.AssignFrom | src/quasispeciestree/tree/QuasiSpeciesNode.java:135-156 | takes over height, label, metadata, ID and both haplotypes; clears the parent; each child becomes `nodes[source child's label]`, linked back to this node; a link that is not replaced is left as it was |
| QuasiSpeciesTreeNode.QuasiSpeciesNode.AssignFromUnder | src/quasispeciestree/tree/QuasiSpeciesNode.java:135-156 | the recursion of assignFrom with the rebuilt root's parent link given; same field and link contract |
| QuasiSpeciesTreeNode.ChildrenAssignable | src/quasispeciestree/tree/QuasiSpeciesNode.java:146-154 | the recursive calls of assignFrom meet its own precondition, with distinct pool targets |
| WilsonBalding.CheckTreeSize | src/quasispeciestree/operators/QuasiSpeciesWilsonBaldingEasy.java:33-36 | initialisation succeeds exactly when the tree has at least 3 leaves |
| WilsonBalding.SmallTreeHasNoValidSource | src/quasispeciestree/operators/QuasiSpeciesWilsonBaldingEasy.java:33-36 | in a tree of at most 3 nodes every node is an invalid source, which is why such trees are refused |
| WilsonBalding.ValidSourceHasValidDestination | src/quasispeciestree/operators/QuasiSpeciesWilsonBaldingEasy.java:150-199 | every valid source has at least one valid destination, so the destination loop can end |
| WilsonBalding.ChooseSource | src/quasispeciestree/operators/QuasiSpeciesWilsonBaldingEasy.java:48-51 | the source loop returns the first drawn node that is a valid source whose continuing haplotype equals its haplotype above |
| WilsonBalding.ChosenSource | src/quasispeciestree/operators/QuasiSpeciesWilsonBaldingEasy.java:48-51 | the source the loop settles on is a node, is valid, and keeps its haplotype |
| WilsonBalding.ChooseDestination | src/quasispeciestree/operators/QuasiSpeciesWilsonBaldingEasy.java:62-65 | the destination loop returns the first drawn node that is a valid destination for the source; every earlier draw is invalid |
| WilsonBalding.Proposal | src/quasispeciestree/operators/QuasiSpeciesWilsonBaldingEasy.java:45-142 | the proposal picks the chosen source and the first drawn valid destination. Its outcome is one of: root-move rejection; the new time with the haplotype rescaling; rejection by that rescaling; the zero-range error; or the ratio contribution + ln(newRange) - ln(oldRange) |
| WilsonBalding.NewAttachmentTimeInInterval | src/quasispeciestree/operators/QuasiSpeciesWilsonBaldingEasy.java:93-96 | with a non-empty interval, min + span·u for u in [0, 1) lies in [min, destParentHeight) |
| WilsonBalding.ProposedTimeInInterval | src/quasispeciestree/operators/QuasiSpeciesWilsonBaldingEasy.java:70-96 | in a time tree, a proposed move (a `Proposed` outcome, so it passed the root test and its time range is not empty) has a destination with a parent, and its new time lies in [max(t_dest, t_src), t_destParent) |
| WilsonBalding.ZeroBranchLengthIff | src/quasispeciestree/operators/QuasiSpeciesWilsonBaldingEasy.java:128-138 | the zero-range error happens exactly when the destination branch has length zero, or when the grandparent, the parent and the higher of source and sister share one height |
| WilsonBalding.Parent | src/quasispeciestree/operators/QuasiSpeciesWilsonBaldingEasy.java:53 | a parent is a node or -1 at the root |
| WilsonBalding.Sister | src/quasispeciestree/operators/QuasiSpeciesWilsonBaldingEasy.java:54 | getOtherChild: a node other than i with the same parent |
| Likelihood.QuasiSpeciesTreeLikelihood.CalcConstantPatternIndices | src/piqmee/likelihood/QuasiSpeciesTreeLikelihood3.java:298-318 | the constant-pattern list is exactly 0, 1, …, patterns·stateCount - 1, in order, because every state stays invariant |
| Likelihood.QuasiSpeciesTreeLikelihood.EvecTimesEval | src/piqmee/likelihood/QuasiSpeciesTreeLikelihood3.java:590-594 | entry i·S+j is evec[i·S+j]·eval[j] |
| Likelihood.QuasiSpeciesTreeLikelihood.GetNoChangeRates | src/piqmee/likelihood/QuasiSpeciesTreeLikelihood3.java:585-602 | rates[i] is the diagonal entry i of evec·diag(eval)·ievc |
| Likelihood.QuasiSpeciesTreeLikelihood.DiagonalInto | src/piqmee/likelihood/QuasiSpeciesTreeLikelihood3.java:596-600 | after one pass of the inner loop, rates[i] is diagonal entry i of evec·diag(eval)·ievc, read from the evec·eval buffer; every other rate is unchanged |
| Likelihood.QuasiSpeciesTreeLikelihood.DiagonalStep | src/piqmee/likelihood/QuasiSpeciesTreeLikelihood3.java:598 | one step adds the j-th product, so rates[i] goes from the partial diagonal sum up to j to the sum up to j+1; every other rate is unchanged |
| LikelihoodSpecs.NoChangeRateOfDiagonalMatrix | src/piqmee/likelihood/QuasiSpeciesTreeLikelihood3.java:578-602 | when both eigenvector matrices are the identity, the rate of no change of state i is eval[i] |
| Likelihood.QuasiSpeciesTreeLikelihood.FillLogProbabilities | src/piqmee/likelihood/QuasiSpeciesTreeLikelihood3.java:673-684 | logProbabilities[c·S+j] = totalBranchTime · rate(c) · branchRate · rates[j] |
| Likelihood.QuasiSpeciesTreeLikelihood.SetLeafScaleForUpdate | src/piqmee/likelihood/QuasiSpeciesTreeLikelihood3.java:816-818 | leafIndex[n] flips between 0 and 1; every other selector is unchanged |
| Likelihood.QuasiSpeciesTreeLikelihood.CalculateLogLeafScale | src/piqmee/likelihood/QuasiSpeciesTreeLikelihood3.java:785-801 | the buffer leafIndex[n] of leaf n gets entry c·P+p = logProbabilities[c·S + states[n][p]]; every other leaf buffer is unchanged |
| Likelihood.QuasiSpeciesTreeLikelihood.RefreshLeaf | src/piqmee/likelihood/QuasiSpeciesTreeLikelihood3.java:669-691 | the leaf update in source order: it flips the selector, then writes only the newly selected buffer of this leaf, with the log probability of no change |
| LikelihoodSpecs.LeafScaleIsLogNoChange | src/piqmee/likelihood/QuasiSpeciesTreeLikelihood3.java:785-801 | leaf scale entry c·P+p is time·rate(c)·branchRate·rates[state of pattern p] |
| Likelihood.QuasiSpeciesTreeLikelihood.AccumulateLogLeafScale | src/piqmee/likelihood/QuasiSpeciesTreeLikelihood3.java:804-814 | acc[w] is the sum over leaves j < nodeCount/2+1 of the selected buffer leafLogScaleFactors[leafIndex[j]][j][w] |
| Likelihood.QuasiSpeciesTreeLikelihood.LeafScaleSumIsSelected | src/piqmee/likelihood/QuasiSpeciesTreeLikelihood3.java:804-814 | the running sum of the accumulation loop over the first m leaves equals the sum over the buffers the selectors pick |
| Likelihood.QuasiSpeciesTreeLikelihood.IntegrateFirstCategory | src/piqmee/likelihood/QuasiSpeciesTreeLikelihood3.java:534-544 | out[u] = in[u]·p[0], with no scale correction |
| Likelihood.QuasiSpeciesTreeLikelihood.AddCategoryPattern | src/piqmee/likelihood/QuasiSpeciesTreeLikelihood3.java:550-558 | for the states of one pattern, each root partial grows by this category's term; all others are unchanged |
| Likelihood.QuasiSpeciesTreeLikelihood.AddCategoryEntry | src/piqmee/likelihood/QuasiSpeciesTreeLikelihood3.java:554 | root partial u grows by the category term: inPartials[v]·proportions[l]·exp(accumulated leaf scale of u); every other root partial is unchanged |
| Likelihood.QuasiSpeciesTreeLikelihood.AddCategory | src/piqmee/likelihood/QuasiSpeciesTreeLikelihood3.java:547-559 | one pass of the category loop: the partials integrated over categories below l become those integrated over categories below l+1 |
| Likelihood.QuasiSpeciesTreeLikelihood.IntegrateCategories | src/piqmee/likelihood/QuasiSpeciesTreeLikelihood3.java:531-560 | out[u] = in[u]·p[0] + Σ_{l≥1} in[l·P·S+u]·p[l]·exp(acc[index(u,l)]) for the chosen scale indexing |
| Likelihood.QuasiSpeciesTreeLikelihood.IntegratePartials | src/piqmee/likelihood/QuasiSpeciesTreeLikelihood3.java:531-560 | the integration as written: the correction is read at acc[u] (pattern·state index), which needs P·S entries when there is more than one category |
| Likelihood.QuasiSpeciesTreeLikelihood.IntegratePartialsByCategory | src/piqmee/likelihood/QuasiSpeciesTreeLikelihood3.java:531-560 | the corrected integration: the correction of category l for pattern k is read at acc[l·P+k], which is always in the buffer |
| LikelihoodSpecs.ByPatternStateOverruns | src/piqmee/likelihood/QuasiSpeciesTreeLikelihood3.java:554 | as written, with 1 pattern, 4 states and 2 categories the index read for u = 2 is outside the two-entry buffer |
| LikelihoodSpecs.ByPatternStateIgnoresCategory | src/piqmee/likelihood/QuasiSpeciesTreeLikelihood3.java:554 | as written, the correction read does not depend on the category |
| LikelihoodSpecs.ByCategoryReadsPattern | src/piqmee/likelihood/QuasiSpeciesTreeLikelihood3.java:554 | the corrected index of root partial k·S+i in category l is the entry l·P+k that calculateLogLeafScale wrote for pattern k |
| LikelihoodSpecs.ByCategoryStaysInBuffer | src/piqmee/likelihood/QuasiSpeciesTreeLikelihood3.java:554 | the corrected index is below C·P for every root partial and category |
| LikelihoodSpecs.CategoryTermAt | src/piqmee/likelihood/QuasiSpeciesTreeLikelihood3.java:554 | the term of category l at u reads in[l·P·S+u] and lies inside the raw partials |
| Likelihood.QuasiSpeciesTreeLikelihood.AddProportionInvariant | src/piqmee/likelihood/QuasiSpeciesTreeLikelihood3.java:495-501 | every root partial grows by the proportion invariant times the number of times its index occurs in the constant-pattern list |
| LikelihoodSpecs.InvariantAddedStep | src/piqmee/likelihood/QuasiSpeciesTreeLikelihood3.java:498-500 | one more list entry adds the proportion to exactly that index |
| LikelihoodSpecs.IdentityListOccurrences | src/piqmee/likelihood/QuasiSpeciesTreeLikelihood3.java:498-500 | in the list 0, 1, …, n-1, every index below n occurs exactly once |
| LikelihoodSpecs.RootPartialsWithIdentityList | src/piqmee/likelihood/QuasiSpeciesTreeLikelihood3.java:493-501 | with the list calcConstantPatternIndices builds, every root partial is the integrated value plus the proportion invariant |
| LikelihoodSpecs.RootPartialsAfterIntro | src/piqmee/likelihood/QuasiSpeciesTreeLikelihood3.java:493-501 | the integrated partials with the invariant additions are exactly the root partials calcLogP feeds to calculateLogLikelihoods |
| Likelihood.QuasiSpeciesTreeLikelihood.PatternSum | src/piqmee/likelihood/QuasiSpeciesTreeLikelihood3.java:567-572 | the sum is Σ_i freq[i]·partials[v0+i] |
| Likelihood.QuasiSpeciesTreeLikelihood.CalculateLogLikelihoods | src/piqmee/likelihood/QuasiSpeciesTreeLikelihood3.java:562-575 | ll[k] = log(Σ_i freq[i]·partials[k·S+i]) + logScale(k), for every pattern |
| LikelihoodSpecs.PatternLogLikelihoodLocal | src/piqmee/likelihood/QuasiSpeciesTreeLikelihood3.java:565-573 | ll[k] depends only on the S root partials of pattern k |
| Likelihood.QuasiSpeciesTreeLikelihood.SumLogP | src/piqmee/likelihood/QuasiSpeciesTreeLikelihood3.java:510-520 | logP = Σ w_k·ll_k, or Σ w_k·(ll_k - correction) when ascertained |
| LikelihoodSpecs.WeightedLogPNegInf | src/piqmee/likelihood/QuasiSpeciesTreeLikelihood3.java:510-520 | with positive weights, the total is negative infinity exactly when some pattern's log-likelihood is |
| LikelihoodSpecs.AscertainmentShift | src/piqmee/likelihood/QuasiSpeciesTreeLikelihood3.java:511-519 | the ascertained total is the plain total minus (Σ weights)·correction |
| Likelihood.QuasiSpeciesTreeLikelihood.RootPartialsForLogP | src/piqmee/likelihood/QuasiSpeciesTreeLikelihood3.java:485-501 | accumulates the leaf scales; integrates the root partials (corrected index); adds the proportion invariant at the constant patterns, taking it from the site model when the list exists |
| Likelihood.QuasiSpeciesTreeLikelihood.CalcLogP | src/piqmee/likelihood/QuasiSpeciesTreeLikelihood3.java:485-521 | after calcLogP: acc is the leaf-scale sum; the root partials are integrated plus invariant; the pattern log-likelihoods are computed from them; logP is their weighted total |
| Likelihood.QuasiSpeciesTreeLikelihood.LogPComputedWith | src/piqmee/likelihood/QuasiSpeciesTreeLikelihood3.java:485-521 | the state calcLogP leaves behind fixes logP to the reference total over the buffers the selectors pick |
| Likelihood.QuasiSpeciesTreeLikelihood.TraverseHaplo | src/piqmee/likelihood/QuasiSpeciesTreeLikelihood3.java:637-665 | with a haplotype starting above the node, its cached partial branch time is refreshed exactly when the status is non-clean or the time changed, and the status then gains DIRTY |
| Likelihood.QuasiSpeciesTreeLikelihood.TraverseBranch | src/piqmee/likelihood/QuasiSpeciesTreeLikelihood3.java:669-715 | the node's branch is refreshed exactly when the status is non-clean or the cached branch time differs. The cache then holds the new time and the status gains DIRTY. A refreshed leaf flips its selector and gets a fresh scale buffer; other buffers are untouched |
| Likelihood.QuasiSpeciesTreeLikelihood.RefreshIfLeaf | src/piqmee/likelihood/QuasiSpeciesTreeLikelihood3.java:686-690 | only a refreshed leaf flips its selector and gets a fresh leaf scale for its branch; every other selector, scale and fresh buffer is kept |
| Likelihood.QuasiSpeciesTreeLikelihood.TraverseOwn | src/piqmee/likelihood/QuasiSpeciesTreeLikelihood3.java:609-715 | the node's own status starts as node.isDirty() \| hasDirt; the haplotype and branch refreshes are applied in order |
| Likelihood.QuasiSpeciesTreeLikelihood.Traverse | src/piqmee/likelihood/QuasiSpeciesTreeLikelihood3.java:605-781 | returns the subtree's status (own bits OR the children's) and updates the cache exactly as CacheAfter does. The selectors flip exactly on the refreshed leaves. Only their buffers are written, each holding the fresh log probability of no change |
| Likelihood.QuasiSpeciesTreeLikelihood.TraverseChildren | src/piqmee/likelihood/QuasiSpeciesTreeLikelihood3.java:719-743 | traverses the left child, then the right one over the cache the left one left behind |
| LikelihoodSpecs.StatusCleanIff | src/piqmee/likelihood/QuasiSpeciesTreeLikelihood3.java:609-743 | a subtree's status is CLEAN exactly when no node is dirty, hasDirt is CLEAN and every cached branch time already matches; a CLEAN traversal leaves the cache unchanged |
| LikelihoodSpecs.TraversalMakesConsistent | src/piqmee/likelihood/QuasiSpeciesTreeLikelihood3.java:651-715 | after a traversal every cached branch time matches the tree |
| LikelihoodSpecs.RetraversalCleanIff | src/piqmee/likelihood/QuasiSpeciesTreeLikelihood3.java:605-781 | a second traversal of the same tree is CLEAN exactly when nothing is marked dirty: branch times never trigger two recomputations |
| LikelihoodSpecs.DirtyForcesRecompute | src/piqmee/likelihood/QuasiSpeciesTreeLikelihood3.java:609 | a non-clean hasDirt makes the traversal non-clean, so calcLogP runs |
| LikelihoodSpecs.CacheAfterFrame | src/piqmee/likelihood/QuasiSpeciesTreeLikelihood3.java:651-715 | a traversal writes only the cache slots of the subtree's branches |
| LikelihoodSpecs.RefreshedLeavesOfSubtree | src/piqmee/likelihood/QuasiSpeciesTreeLikelihood3.java:669-691 | every leaf a traversal refreshes is a leaf slot of that subtree |
| LikelihoodSpecs.DirtyRefreshesEveryLeaf | src/piqmee/likelihood/QuasiSpeciesTreeLikelihood3.java:609-691 | with hasDirt not CLEAN, traverse refreshes exactly the leaves of the subtree, whatever the cache holds |
| LikelihoodSpecs.UnrefreshedLeafCached | src/piqmee/likelihood/QuasiSpeciesTreeLikelihood3.java:669-691 | a leaf of the tree that a traversal does not refresh already has its branch time in the cache |
| LikelihoodSpecs.ConsistentLeaf | src/piqmee/likelihood/QuasiSpeciesTreeLikelihood3.java:669-691 | once the cache matches the tree, each of its leaves has its branch time cached at its own number |
| LikelihoodSpecs.FoldedBranchRate | src/piqmee/likelihood/QuasiSpeciesTreeLikelihood3.java:671-681 | the log probabilities of no change at time·rate with rate 1 are those at the time with the rate applied per category |
| Likelihood.QuasiSpeciesTreeLikelihood.RequiresRecalculation | src/piqmee/likelihood/QuasiSpeciesTreeLikelihood3.java:834-853 | hasDirt becomes FILTHY for a dirty alignment, else DIRTY for a dirty site model, else CLEAN; the answer is true when anything is dirty |
| Likelihood.QuasiSpeciesTreeLikelihood.Store | src/piqmee/likelihood/QuasiSpeciesTreeLikelihood3.java:856-871 | the stored branch lengths, accumulated scales, selectors and rates equal the current ones |
| Likelihood.QuasiSpeciesTreeLikelihood.Restore | src/piqmee/likelihood/QuasiSpeciesTreeLikelihood3.java:874-892 | the four current and stored array references are swapped, in O(1) |
| Likelihood.QuasiSpeciesTreeLikelihood.RejectedProposal | src/piqmee/likelihood/QuasiSpeciesTreeLikelihood3.java:605-892 | store, traverse, restore: branch lengths, accumulated scales, rates and selectors are back to their old contents, and every buffer the selectors point to was never written |
| Likelihood.QuasiSpeciesTreeLikelihood.RescaledRejectionAsWritten | src/piqmee/likelihood/QuasiSpeciesTreeLikelihood3.java:472-478 | store, traverse, the rescale traversal as written, restore: the branch-length cache, rates and selectors are back to their old contents, yet every refreshed leaf of the proposed tree has its restored selector pointing at a buffer filled for the proposed tree |
| Likelihood.QuasiSpeciesTreeLikelihood.RescaledRejection | src/piqmee/likelihood/QuasiSpeciesTreeLikelihood3.java:856-892 | store, traverse, the corrected rescale traversal, restore: branch lengths, accumulated scales, rates and selectors are back to their old contents, and every buffer the selectors point to was never written, as for a proposal without a rescale |
| Likelihood.QuasiSpeciesTreeLikelihood.RescaleAfterStore | src/piqmee/likelihood/QuasiSpeciesTreeLikelihood3.java:472-478 | when the selectors equal the stored ones, the first traverse and the corrected rescale traversal leave every buffer the stored selectors pick as it was |
| Likelihood.QuasiSpeciesTreeLikelihood.EvaluateOnce | src/piqmee/likelihood/QuasiSpeciesTreeLikelihood3.java:449-460 | the rates of no change are the diagonal of evec·diag(eval)·ievc when the site model is dirty and untouched otherwise. The status is the one traverse computes from the old cache, the cache becomes CacheAfter and matches the tree, the selectors flip exactly on the refreshed leaves and only their buffers change, each holding the fresh log probability of no change. logP is kept when the status is CLEAN; otherwise the run fails exactly when the core raises the arithmetic error, and if not, logP is the weighted total computed from the core output over the buffers the selectors now pick. Every leaf of the tree is fresh afterwards when hasDirt is not CLEAN, and also when every leaf's buffer matched the cache beforehand and a dirty site model comes with a non-CLEAN hasDirt |
| Likelihood.QuasiSpeciesTreeLikelihood.TraverseRoot | src/piqmee/likelihood/QuasiSpeciesTreeLikelihood3.java:455 | the status is the reference status of the tree. The branch-length cache becomes the reference cache and is consistent with the tree. Exactly the refreshed leaves flip their selectors and get fresh scales; the other scales are kept; a leaf that was fresh and is not refreshed stays fresh |
| Likelihood.QuasiSpeciesTreeLikelihood.RecomputeUnlessClean | src/piqmee/likelihood/QuasiSpeciesTreeLikelihood3.java:454-460 | fails exactly when the status is non-clean and the core throws. A CLEAN status leaves logP alone; otherwise logP is the reference total over the selected buffers |
| Likelihood.QuasiSpeciesTreeLikelihood.RefreshTree | src/piqmee/likelihood/QuasiSpeciesTreeLikelihood3.java:449-457 | the rates of no change are refreshed when the site model is dirty and untouched otherwise; traverse(root) returns the status computed from the old cache, leaves the cache equal to CacheAfter and matching the tree, flips the selectors exactly on the refreshed leaves, and writes only their new buffers, each fresh. Every leaf of the tree is fresh afterwards when hasDirt is not CLEAN, and also when every leaf's buffer matched the cache beforehand and a dirty site model comes with a non-CLEAN hasDirt. When the selectors start equal to the stored ones, every leaf of the tree whose selector then differs from the stored one has a fresh buffer |
| Likelihood.QuasiSpeciesTreeLikelihood.ScalesMatchCacheIff | src/piqmee/likelihood/QuasiSpeciesTreeLikelihood3.java:669-691 | once the cache matches the tree, every leaf's active buffer matches the log probability of no change at its cached branch time exactly when it matches the leaf's own branch time and rate |
| Likelihood.QuasiSpeciesTreeLikelihood.FreshFromCache | src/piqmee/likelihood/QuasiSpeciesTreeLikelihood3.java:669-691 | for a leaf whose cached time is its branch time times its rate, the active buffer matches the cached time exactly when it is fresh for the leaf |
| Likelihood.QuasiSpeciesTreeLikelihood.UnrefreshedLeavesFresh | src/piqmee/likelihood/QuasiSpeciesTreeLikelihood3.java:669-691 | when every leaf's buffer matches the cache, each leaf that traverse will not refresh already has a fresh buffer |
| Likelihood.QuasiSpeciesTreeLikelihood.EveryLeafRefreshed | src/piqmee/likelihood/QuasiSpeciesTreeLikelihood3.java:669-691 | when the refreshed leaves are all the leaves of the tree and each refreshed one is fresh, every leaf of the tree is fresh |
| Likelihood.QuasiSpeciesTreeLikelihood.FreshWhereFlipped | src/piqmee/likelihood/QuasiSpeciesTreeLikelihood3.java:669-691 | when the selectors are the stored ones flipped on a set of leaves that traverse refreshed, every leaf whose selector differs from the stored one has a fresh buffer |
| Likelihood.QuasiSpeciesTreeLikelihood.FreshSelectionKept | src/piqmee/likelihood/QuasiSpeciesTreeLikelihood3.java:472-478 | after a retraversal from the stored selectors that refreshes every leaf, a selection that was fresh wherever it left the stored selectors picks the same scale entries as before: the buffers it shares with the new selection hold the same fresh values, and the others are untouched |
| Likelihood.QuasiSpeciesTreeLikelihood.RecomputeLogP | src/piqmee/likelihood/QuasiSpeciesTreeLikelihood3.java:455-456 | after calcLogP, logP is the reference total over the buffers the selectors pick, computed from the core output |
| Likelihood.QuasiSpeciesTreeLikelihood.Rescale | src/piqmee/likelihood/QuasiSpeciesTreeLikelihood3.java:472-480 | the corrected rescale: fScale grows by 1%, the counter resets and hasDirt becomes FILTHY. The selectors are reset to the stored ones, and the retraversal flips every leaf of the tree from there and writes fresh buffers for all of them. It leaves the buffers the stored selectors pick as they were. When every leaf whose entry selector differs from the stored one already had a fresh buffer, the scales the entry selectors pick are kept too. logP is then computed from what the rescaled core reports |
| Likelihood.QuasiSpeciesTreeLikelihood.RescaleTraversal | src/piqmee/likelihood/QuasiSpeciesTreeLikelihood3.java:472-478 | the corrected rescale traversal: the counter restarts, fScale grows by 1% and hasDirt becomes FILTHY. The selectors are reset to the stored ones, as `unstore()` resets the core, then every leaf of the tree flips from there and gets fresh buffers. The leaf-scale sums over the stored selection are kept. So are the scales over the entry selection, when every leaf where it differs from the stored one was fresh |
| Likelihood.QuasiSpeciesTreeLikelihood.RescaleTraversalAsWritten | src/piqmee/likelihood/QuasiSpeciesTreeLikelihood3.java:472-478 | the rescale traversal as written: the counter restarts, fScale grows by 1% and hasDirt becomes FILTHY. The selectors are not reset, so every leaf of the tree flips from where the first traversal left it and gets fresh buffers. The leaf-scale sums over the selection from before the call are kept |
| Likelihood.QuasiSpeciesTreeLikelihood.TraverseFilthy | src/piqmee/likelihood/QuasiSpeciesTreeLikelihood3.java:477-478 | with hasDirt FILTHY, traverse refreshes every leaf of the tree: all selectors flip, every new buffer is fresh, and the leaf-scale sums over the previously selected buffers are unchanged |
| Likelihood.QuasiSpeciesTreeLikelihood.RescaleIfNeeded | src/piqmee/likelihood/QuasiSpeciesTreeLikelihood3.java:458-482 | a failed first evaluation returns negative infinity with the counter unchanged. Otherwise the rescale runs exactly when logP is negative infinity, fScale is below 10, scaling is not `none` and the counter has not passed 100. Without it the result is logP, the counter goes up by one, and logP, fScale, hasDirt, the cache, the selectors and the leaf buffers are unchanged. With it (the corrected rescale, from the stored selectors) the retry's logP is returned, and the leaf-scale sums and the total that the stored selectors determine are unchanged |
| Likelihood.QuasiSpeciesTreeLikelihood.RescaleAndRetry | src/piqmee/likelihood/QuasiSpeciesTreeLikelihood3.java:472-480 | the corrected rescale and retry: fScale grows by 1.01, the counter is reset and the tree is FILTHY. Every leaf flips once from the stored selectors and is fresh, and logP is computed from the retry's output. The scales and the total that the stored selectors determine stay as they were. When every leaf whose entry selector differs from the stored one was fresh, the scales and the total over the entry selectors (the first evaluation's) stay as they were too |
| Likelihood.QuasiSpeciesTreeLikelihood.CalculateLogP | src/piqmee/likelihood/QuasiSpeciesTreeLikelihood3.java:443-483 | the first evaluation has the status traverse computes; an arithmetic failure there yields negative infinity with the counter unchanged. firstLogP is the old logP after a CLEAN traversal; otherwise, when no rescale follows, it is the total over the selectors flipped on the refreshed leaves. A rescale happens exactly when there was no failure, firstLogP is negative infinity, fScale was below 10, scaling is not `none` and the counter has not passed 100. Then the corrected rescale runs: fScale grows by 1%, the counter resets, every leaf flips from the stored selectors, and the result is logP computed from the retry. Without one the result is firstLogP, the counter goes up by one, and fScale, hasDirt and the selectors stay as the first evaluation left them |
| LikelihoodSpecs.GetTaxonIndex | src/piqmee/likelihood/QuasiSpeciesTreeLikelihood3.java:383-394 | a successful lookup returns an index of the taxon list |
| LikelihoodSpecs.IndexOf | src/piqmee/likelihood/QuasiSpeciesTreeLikelihood3.java:384 | the first position of the name, or -1 exactly when it is absent |
| LikelihoodSpecs.GetTaxonIndexMeaning | src/piqmee/likelihood/QuasiSpeciesTreeLikelihood3.java:383-394 | a listed name is found directly. An unlisted name without a leading quote is an error. A quoted unlisted name succeeds exactly when the text between the first and last characters is listed, and then finds it |
| LikelihoodSpecs.QuotedNameFindsTaxon | src/piqmee/likelihood/QuasiSpeciesTreeLikelihood3.java:386-391 | 'name' or "name" finds the taxon name; otherwise the error message names the quoted string |

## Left out

- Framework plumbing is not modelled:
  - `initAndValidate` wiring and `Input` objects;
  - `startEditing`;
  - `subset`, `setStates`/`setPartials` and `initCore`'s core setup;
  - the BEAGLE branches;
  - logging.

  The array sizes that `initAndValidate` chooses are part of the likelihood class invariant (`Valid`). `states` is taken as given.
- Floating point: every value is a `real`, with no IEEE rounding or underflow. `exp`, `log` and `ln` are function parameters. Negative infinity is the `NegInf` value of `Ext`.
- Random draws (`Randomizer`, `ThreadLocalRandom`, the scale operator's generator) are parameters. Each redraw loop's exit is a precondition stating that some draw satisfies it. The termination of the rejection loops in the source is not modelled.
- The likelihood core is outside the model: `calculatePartials`, `getNodePartials`, `getLogScalingFactor`, `setUseScaling`, `unstore`, the transition matrices and the eigendecomposition. The root partials and per-pattern scaling it reports enter as a `CoreView`. Calls that only mark core matrices for update are not modelled.
- The arithmetic failure (`ArithmeticException`) of `calculateLogP` is a boolean parameter, and it yields negative infinity. In the model it is raised after the first traversal has finished, where logP is recomputed. In the source the `try` also covers `traverse`, whose transition matrices can overflow part-way through the tree; the `EvaluateOnce` and `CalculateLogP` lines below say what that leaves out.
- Likelihood.QuasiSpeciesTreeLikelihood.EvaluateOnce: a failure raised inside `traverse` leaves the branch-length cache, the leaf selectors and the leaf scale buffers partly updated. The slots and leaves visited before the failing node are rewritten, and the rest are not. The model fails only after a complete traversal, so on `failed` its cache, selector and buffer clauses describe the complete traversal. The partly updated state is not captured.
- Likelihood.QuasiSpeciesTreeLikelihood.CalculateLogP: on failure, `firstSelectors` and the final `leafIndex` are those of a complete traversal, for the reason given under `EvaluateOnce`. A failure part-way through `traverse` leaves only some of the refreshed leaves flipped, and that is not captured.
- Likelihood.QuasiSpeciesTreeLikelihood.Rescale: the retry traversal and calcLogP of the rescaling branch lie outside the source's `try`, so an `ArithmeticException` there leaves `calculateLogP` as an exception. The model has no failure on the retry path.
- Likelihood.QuasiSpeciesTreeLikelihood.CalculateLogP: an `ArithmeticException` raised during the retry is not modelled, for the reason given under `Rescale`.
- Single-leaf trees: the likelihood invariant requires at least two leaves. The source's "Expected more than 1 leaf node" exception is therefore not reachable in the model.
- The "QS of parent of child 1 ne to QS of parent of child 2" exception in traverse compares a node's continuing haplotype with itself, so it never fires. It is not modelled.
- Likelihood.QuasiSpeciesTreeLikelihood.CalculateLogP: the switch-off branch (logP > 0, or the scaling counter above 100) is empty in the source and does nothing in the model. Whether scaling is `none` and whether the core scales are booleans.
- Likelihood.QuasiSpeciesTreeLikelihood.CalculateLogP: does not repeat what the first evaluation does to the rates, the branch-length cache and the freshness of the refreshed buffers; `EvaluateOnce` states those. It does not state the cache and the buffers after a rescale either; `RescaleIfNeeded` states those.
- Likelihood.QuasiSpeciesTreeLikelihood.CalculateLogP: it does not state that fScale never decreases for a negative fScale. fScale is only ever multiplied by 1.01, which is an increase because the source starts it at 1.01.
- Likelihood.QuasiSpeciesTreeLikelihood.CalcLogP: uses the corrected scale index (see Findings). The as-written integration is kept as `IntegratePartials`.
- Likelihood.QuasiSpeciesTreeLikelihood.RootPartialsForLogP: integrates with the corrected scale index acc[l·P+k], not the acc[u] of the source (see Findings).
- Likelihood.QuasiSpeciesTreeLikelihood.EvaluateOnce: its logP comes from `CalcLogP`, so it uses the corrected scale index too.
- Likelihood.QuasiSpeciesTreeLikelihood.Rescale: its logP comes from `CalcLogP`, so it uses the corrected scale index too.
- Likelihood.QuasiSpeciesTreeLikelihood.CalculateLogP: its logP comes from `CalcLogP`, so it uses the corrected scale index too.
- Likelihood.QuasiSpeciesTreeLikelihood.Rescale: the retraversal starts from `storedLeafIndex`: `RescaleTraversal` first resets the selectors to the stored ones. The source only calls `likelihoodCore.unstore()` and starts from the selectors the first traverse left (see Findings). The as-written traversal is `RescaleTraversalAsWritten`.
- Likelihood.QuasiSpeciesTreeLikelihood.RescaleAndRetry: runs the corrected rescale through `Rescale`, so its retraversal starts from `storedLeafIndex`, not from the selectors the first traverse left as in the source (see Findings).
- Likelihood.QuasiSpeciesTreeLikelihood.RescaleIfNeeded: its rescaling branch is the corrected one, through `RescaleAndRetry`, so the retraversal starts from `storedLeafIndex` (see Findings).
- Likelihood.QuasiSpeciesTreeLikelihood.CalculateLogP: its rescaling branch is the corrected one, through `RescaleIfNeeded`, so the retraversal starts from `storedLeafIndex` (see Findings).
- Likelihood.QuasiSpeciesTreeLikelihood.CalculateLogP: after a rescale its own contract does not tie `firstLogP` to the first evaluation's selectors. Two contracts carry the pieces: `RescaleAndRetry` keeps the total over the entry selectors when every leaf where they differ from the stored ones is fresh, and `RefreshTree` establishes that freshness when the selectors start equal to the stored ones. The composition is not stated in `CalculateLogP`'s contract, because its proof does not fit the verifier's resource limit. So `rescaled` being characterised by `firstLogP.NegInf?` does not by itself rule out a rescale after a finite first total.
- Likelihood.QuasiSpeciesTreeLikelihood.IntegratePartials: requires a scale buffer at least as long as the root partials when there is more than one category. This excludes the overrun: when S > C, the source's read of `accumulatedLogLeafScaleFactors[u]` runs past the buffer and throws `ArrayIndexOutOfBoundsException`, which the `ArithmeticException` handler does not catch. `ByPatternStateOverruns` exhibits that layout (see Findings), and the rest of the model uses `IntegratePartialsByCategory`.
- Likelihood.QuasiSpeciesTreeLikelihood.SumLogP: pattern weights are required to be positive. A zero weight multiplied by a negative-infinity pattern log-likelihood gives NaN in the source, which `Ext` cannot represent.
- Likelihood.QuasiSpeciesTreeLikelihood.CalcLogP: requires positive pattern weights, for the reason given under `SumLogP`.
- The "Site categories not supported" `RuntimeException` of traverse is not modelled: the site model is assumed to integrate across categories.
- Likelihood.QuasiSpeciesTreeLikelihood.CalcConstantPatternIndices: the per-state loop over each pattern's state sets has no effect, because its body is commented out, so it is not modelled.
- Status values are 2-bit values. Only CLEAN (0), DIRTY (1) and FILTHY (2) occur, and the source only ORs them, so the upper bits of the Java `int` play no part.
- The internal partials are recomputed by the core exactly when the node's returned status is not CLEAN. Because the core is outside the model, that call is not a separate step. `StatusCleanIff` characterises the condition.
- `tmpevectimesevals` is a fresh local array in `EvecTimesEval` rather than a long-lived field.
- The branch rate (`getRateForBranch`) is a field of each traversal node (`TNode`). The category rates (`getRateForCategory`) are one `categoryRates` sequence for the whole traversal, so they do not vary by node. The branch rate model is assumed present, as the source comment on traverse states.
- Ambiguous state codes in `states` are not modelled: every state is in `[0, S)`.
- QuasiSpeciesTreeNode.QuasiSpeciesNode.AssignFromUnder: the contract is one level deep, as for `AssignFrom`. It states the rebuilt node's fields and its direct child links, not the fields of the grandchildren its recursive calls rebuild.
- QuasiSpeciesTreeNode.QuasiSpeciesNode.AssignFrom: the contract is one level deep. It states this node's fields and its direct child links; it says nothing about the fields of nodes further down, although the recursive calls rebuild them too. Links that assignFrom does not replace are left as they were, as in the source. `m_tree`/`setmTree` is not modelled.
- Wilson–Balding tree surgery is not modelled: `disconnectBranch`, `connectBranch`, `recalculateParentHaploAndCorrectContinuingHaploName`, `countAndSetPossibleStartBranches`, `makeDirty`. `scaleThisHaplo` (with its `length > 1` guard) is the parameter `haploScale`. The tree is an index-based view (`TreeView`) of heights, links and haplotypes.
- The three operators assign `getAttachmentTimes()` to an `ArrayList<Double>` and test membership with `contains`, which compares with `Double.equals`. But `QuasiSpeciesIncidence.getAttachmentTimes()` returns `double[]`, so the operator files and the incidence file do not compile together. The model settles this by using the incidence's array: the operators edit it in place, and the random and uniform moves then call `setAttachmentTimes` on the same array, as the source does. Membership is equality of reals, so the `Double.equals` distinctions (NaN, -0.0) play no part.
- AttachmentOperators.AttachmentRandomProposal: a two-time list whose first time is selected makes the source loop forever (see Findings). The model returns negative infinity there instead.
- Incidence.QuasiSpeciesIncidence.constructor: requires a non-negative count. A negative count makes `new double[count]` throw `NegativeArraySizeException`, which is not modelled.
- Incidence.QuasiSpeciesIncidence.GenerateAttachmentTimes: requires `count != 0` when the cursor is 0. With count 0 the source divides by zero, giving an infinite or NaN step, which it stores in slot 0 or throws on an empty array. Reals have no infinity or NaN.
- AttachmentOperators.ScaleProposal: requires a non-zero scale factor. With 0 the source divides by zero and gets an infinite or NaN factor, which reals cannot represent. A missing factor is rejected by `ValidateScaleFactor`.

## Findings

| source | as written | input that shows it | evidently intended | confidence | as-written member | corrected member |
|---|---|---|---|---|---|---|
| src/piqmee/likelihood/QuasiSpeciesTreeLikelihood3.java:554 | the scale correction is read at `accumulatedLogLeafScaleFactors[u]` with u = k·S+i, but the buffer is laid out by category and pattern (c·P+p, length C·P) | 1 pattern, 4 states, 2 categories: u = 2 reads entry 2 of a 2-entry buffer; and for any input, the correction does not depend on the category | read entry l·P+k, the scale that calculateLogLeafScale wrote for category l and pattern k | not executed | LikelihoodSpecs.ByPatternStateOverruns | Likelihood.QuasiSpeciesTreeLikelihood.IntegratePartialsByCategory |
| src/piqmee/operators/QuasiSpeciesIncidencesScale.java:69-73 | the origin test uses the unscaled last time | times [1, 2], f = 2, origin 3, sampling time 0.5: accepted, and the last time becomes 4 ≥ origin | reject when the scaled last time reaches the origin, as the comment says | not executed | AttachmentOperators.ScaleAcceptsPastOrigin | AttachmentOperators.ScaleIntendedKeepsBounds |
| src/piqmee/tree/QuasiSpeciesIncidence.java:95-98 | an empty record starts at `step`, not at `lowerBound + step` | sampling time 4, count 3, lower bound 7: -1, -2, -3, outside [4, 7] | ascending times in equal steps strictly between the two bounds, in either order: 4.75, 5.5, 6.25 there | not executed | Incidence.GenerateFromEmptyExample | Incidence.IntendedAttachmentTimesWithinBounds |
| src/piqmee/operators/QuasiSpeciesIncidenceAttachmentRandom.java:74-79 | the selected time is overwritten in place and the list is not re-sorted, so the list can stop being ascending; a later random or uniform move may then ask `nextDouble` for an empty interval, which throws | times [1, 2, 3], slot 0 selected, lower bound 1, draw 2.5: the list becomes [2.5, 2, 3]; then lower bound 0 (random move) or slot 0 (uniform move) asks for a time in [2.5, 2) | the new time is sorted into place, so the list stays strictly ascending and every later interval is non-empty | not executed | AttachmentOperators.RandomMoveThenEmptyInterval | AttachmentOperators.RandomMoveInOrderKeepsOrder |
| src/piqmee/operators/QuasiSpeciesIncidenceAttachmentRandom.java:53-56 | the lower bound is redrawn until it differs from the selected index, but with two times `nextInt(1)` only yields 0 | two attachment times with slot 0 selected: every draw is 0, the selected index, and the loop never ends | reject the move (negative infinity) when no other lower bound exists, as for a record with no valid neighbour interval | not executed | AttachmentOperators.RandomTwoTimesAtFirstHangs | AttachmentOperators.AttachmentRandomProposal |
| src/piqmee/operators/QuasiSpeciesIncidenceAttachmentRandom.java:56 | the lower bound is drawn with `nextInt(size - 1)`, which throws for a record of one time | a record of one time: `nextInt(0)` | reject the move (negative infinity) and leave the record untouched | not executed | AttachmentOperators.SingleTimeRecordFaults | AttachmentOperators.RandomProposalRejectingSingle |
| src/piqmee/operators/QuasiSpeciesIncidenceAttachmentUniform.java:59-60 | the new time is drawn in the clamped neighbour interval, which is [t, t) for a record of one time, and `nextDouble` throws | a record of one time t: `nextDouble(t, t)` | reject the move (negative infinity) and leave the record untouched | not executed | AttachmentOperators.SingleTimeRecordFaults | AttachmentOperators.UniformProposalRejectingSingle |
| src/piqmee/likelihood/QuasiSpeciesTreeLikelihood3.java:472-478 | the rescale calls `likelihoodCore.unstore()` but leaves `leafIndex` as the first traverse left it, so each leaf that traverse refreshed flips back to the buffer `storedLeafIndex` selects and the FILTHY retraversal writes the proposed tree into it | store, then a proposal that changes one leaf's branch time and whose first logP is negative infinity with fScale below 10; the proposal is rejected and restore reinstates a selector whose buffer holds the rejected time's scales while the cache holds the old time | reset `leafIndex` to `storedLeafIndex` before the retraversal, as `unstore()` does for the core, so restore finds its buffers untouched | not executed | Likelihood.QuasiSpeciesTreeLikelihood.RescaledRejectionAsWritten | Likelihood.QuasiSpeciesTreeLikelihood.RescaledRejection |

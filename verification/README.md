# Verified model of the IKNOS reasoning core

IKNOS turns documents into propositions and propositions into graded, retractable beliefs. This
project models the parts of it whose guarantees are theorems, and proves them in Dafny 4.11.
`dafny verify dfyconfig.toml` checks the whole project.

The spine is the two-layer belief store. Layer A decides which nodes are well-founded from
evidence, Layer B scores exactly those nodes over a confidence semiring, the adapter builds the
input of both from graph rows, the derive operator adds to those rows, and the adjudication
engine turns the scores into verdicts. Around it stand the part-of closure, candidate generation,
the extract/verify pipeline, identity components and their revision, the bounded stabiliser and
the small algorithms those rest on.

| file | models |
|---|---|
| `TruthMaintenance.dfy`, `SupportBooks.dfy`, `IncrementalSupport.dfy` | Layer A: the full recompute and the incremental oracle |
| `Confidence.dfy`, `Valuation.dfy`, `ProofTrees.dfy`, `WeakestLink.dfy` | Layer B: the semirings, the engine, and what its numbers mean |
| `DerivationOrder.dfy`, `DerivationAdapter.dfy`, `ActiveRows.dfy`, `RowOrder.dfy`, `StableAssembly.dfy`, `CurrentRead.dfy`, `RevivingRead.dfy`, `Derive.dfy`, `ConclusionWorth.dfy`, `Deriver.dfy` | rows to subgraph, retraction, the row read, and the derive operator |
| `GradualSemantics.dfy`, `Qbaf.dfy`, `Verdicts.dfy`, `QbafDynamics.dfy`, `QbafAcyclic.dfy`, `SupportChain.dfy`, `Oscillation.dfy`, `MutualSupport.dfy`, `Locality.dfy`, `SettleCriterion.dfy` | adjudication: the semantics, the solver, the verdicts in terms of the edges, its dynamics and exact bounds, the cyclic motifs, the variance criterion |
| `Digraph.dfy`, `PartWhole.dfy` | the part-of closure |
| `Candidates.dfy`, `NearestNodes.dfy`, `Pushdown.dfy` | exact k-nearest neighbours, and the push-down against them |
| `PropositionLog.dfy`, `Proposition.dfy`, `RunEffects.dfy`, `SpanContents.dfy`, `ReplayedIdentity.dfy`, `EmbeddingSpace.dfy` | the extract/replay/verify state machine, its refusals, contents, identities and embedding spaces |
| `Resolve.dfy`, `Components.dfy`, `Revision.dfy`, `ComponentReasoning.dfy` | identity components by union-find, their evidence, merge and split, and the pass that ties them to both layers |
| `ComposedLoop.dfy` | the bounded stabiliser |
| `EdgeJudge.dfy`, `Shuffle.dfy`, `SubjectiveLogic.dfy`, `OpinionFusion.dfy`, `FusionOrder.dfy` | the judge's panel, its opinions and their fusion |
| `Parse.dfy`, `Windows.dfy`, `Clustering.dfy`, `ClaimKeys.dfy` | parse offsets, window tiling, sample consolidation, claim keys |
| `Sets.dfy` | shared facts about finite sets and sequences |

## How the program is represented

Loops that build or update something are methods with invariants, proved equal to a specification
function; the theorems are lemmas about that function. The incremental oracle, the proposition
store and the union-find forest, which update their state in place, are classes. A library sort
or a database query is represented by what it returns.

Floats are reals. Ids are opaque values with an order. Vectors, hashes, models and verifiers are
opaque; distances, similarities and digests are arbitrary functions. What a model call or a
transaction does in one run is an arbitrary value of the environment, so the theorems hold
whatever it answers. Each transaction is one atomic step, and log entries are totally ordered.

## What the proofs say about the program's own claims

Most documented promises hold as stated. For these the proofs give the exact condition, or an
input on which the promise fails and the condition under which it holds:

- The push-down is a subset of the exact answer without ties (`src/iknos/core/candidates.py:643`)
  exactly when at most one query vector, one proposition per node or one candidate is at play
  (`SubsetExactlyWhen`). What holds always is that its head is exact (`HeadIsExact`).
- An acyclic framework always converges (`src/iknos/core/qbaf.py:214`) exactly when the bound
  exceeds its depth, or, by size alone, when it grants a sweep per argument
  (`SettlesExactlyBeyondDepth`, `SettlesExactlyWithASweepEach`). Below that a chain of support is
  reported unresolved, with an empty region if the bound is its depth (`ChainIsUnresolved`); a
  region is empty exactly when one more sweep would have settled the framework.
- A conclusion's stored annotations match the next load (`src/iknos/core/derive.py:275`) exactly
  when the proposal has a premise and, in an active box, no premise is retracted, or all are, or one
  that is not is unsupported; in an inactive box, some premise is unsupported
  (`LoadAgreesExactlyWhen`). Without a premise an axiom is valued and no edge is written; an
  inactive box's rule is valued but never read back; a rule with a retracted premise is valued
  whole and read back without it. Where no premise is retracted this is `WriteAgreesWithValue`.
- The row read drops edges into retracted nodes (`src/iknos/core/derivation_adapter.py:341`),
  against the assembly's contract that antecedents are kept. It assembles the
  contract's subgraph exactly when no edge of an active node leads into a retracted one
  (`ReadIsExactWhenUntouched`). Otherwise it can revive a conclusion, raise a confidence, and even
  lower one; it never loses support, and it lowers no confidence unless groups of different
  strengths read down to one rule (`ReadKeepsSupport`, `ReadScoresNoLower`,
  `AgreeingReadWeakensNothing`).
- The assembled subgraph is stable under row order (`src/iknos/core/derivation_adapter.py:162`)
  exactly when no group names an active conclusion beside another and groups that write one
  active rule give it one strength (`StableExactlyWhen`); otherwise the last row or the last
  group decides (`OrderCanDecideTheStrength`).
- Commutative fusion operators make the order of the fold immaterial
  (`src/iknos/core/subjective_logic.py:311`). While no opinion is dogmatic that is true of
  cumulative fusion (`CumulativeIgnoresOrder`), and of the default averaging fusion exactly for up
  to two opinions or copies of one, because it does not associate. Dogmatic opinions are averaged by
  both fusions and absorb the others: the order of three of them shows under either
  (`DogmaticOrderShows`), and `FoldIgnoresOrderExactlyWhen` is the exact condition.
- Averaging never yields more certainty than its most certain input
  (`src/iknos/core/subjective_logic.py:248`): exactly unless both are within the tolerance of zero
  uncertainty without being there (`WhatFusionLeavesOpen`, `AveragingCanInventCertainty`).
- Cumulative fusion lowers the uncertainty of either input (`src/iknos/core/subjective_logic.py:221`):
  exactly unless one is vacuous or leaves nothing open (`WhatFusionLeavesOpen`).
- Full reliability is the identity of discounting (`src/iknos/core/subjective_logic.py:189`)
  exactly on masses that sum to one; the constructor's tolerance admits others
  (`FullReliabilityIsTheIdentityExactlyWhen`, `AveragingIsIdempotentExactlyWhen`).
- Undoing a merge restores every aggregate (`src/iknos/core/component_aggregate.py:241`) exactly
  when the two entities were apart before it, or hold together without the edge
  (`SplitRestoresExactlyWhen`).
- The reconstructed trajectory is the true one up to the first settling sweep and frozen after it
  (`ReadsBack`); beyond it the two differ (`ReadBackIsFrozen`).
- The nodes set aside by the part-of peeling are those that can reach a cycle, not only those on
  one (`SetAsideWithoutACycle`).
- An accumulating loop converges if the bound leaves one step per addable element and one to
  notice, and that bound is tight (`AccumulationNeedsTheBound`), so the revision loop's remark
  that monotone revision always converges depends on its iteration bound
  (`src/iknos/core/revision_loop.py:124`).
- A replay copies scores only when the source's verifier is the present one
  (`src/iknos/core/proposition.py:879`), but the name of the source's verifier is recorded either
  way, and it is that of the source's last verification, of whatever generation. So an answered
  identity can stand over unscored propositions; `RunBacksExactlyWhen` says when a run leaves it
  so, and `ReplayWithoutVerifierIsNeverAssessed` and
  `ReplayOfAnUnverifiedGenerationIsNeverAssessed` are two histories after which verification,
  promised to complete such a span, never reaches it. Without reuse an identity is always backed
  (`IdentityIsBackedWithoutReuse`).

## Model

| member | source | states |
|---|---|---|
| `TruthMaintenance.SupportIsLeast` | src/iknos/core/truth_maintenance.py:8-12 | the well-founded support is itself closed under the rules and lies inside every closed set |
| `TruthMaintenance.WellFoundedSupport` | src/iknos/core/truth_maintenance.py:96-144 | the counting worklist returns exactly the well-founded support, on cyclic graphs too |
| `TruthMaintenance.UnfoundedSetIsDropped` | src/iknos/core/truth_maintenance.py:14-22 | nodes that support only each other and hold no base fact are all unsupported |
| `TruthMaintenance.SupportMonotone` | src/iknos/core/truth_maintenance.py:14-22 | fewer facts and rules never support more |
| `IncrementalSupport.IncrementalOracle.Apply` | src/iknos/core/truth_maintenance.py:238-256 | after any snapshot the maintained set is the recomputed support of that snapshot, every count is the number of active groundings, and a count is positive exactly for supported nodes |
| `IncrementalSupport.IncrementalOracle.Insert` | src/iknos/core/truth_maintenance.py:284-326 | semi-naive insertion leaves the books settled on the enlarged graph |
| `IncrementalSupport.IncrementalOracle.Delete` | src/iknos/core/truth_maintenance.py:328-397 | delete-rederive leaves the books settled on the reduced graph, whatever cycles it has |
| `IncrementalSupport.IncrementalOracle.SupportCount` | src/iknos/core/truth_maintenance.py:258-264 | the count read back is the number of active groundings of the node in the retained graph |
| `SupportBooks.SurvivorsAreSupported` | src/iknos/core/truth_maintenance.py:328-397 | what over-deletion leaves standing is well-founded in the reduced graph |
| `Confidence.GodelIsLawful` | src/iknos/core/confidence.py:117-128 | Gödel obeys every law the engine asks for: monoids, idempotence, absorption, monotonicity, closure on [0, 1] |
| `Confidence.ViterbiIsLawful` | src/iknos/core/confidence.py:113-126 | so does Viterbi |
| `Confidence.PlusIsMax` | src/iknos/core/confidence.py:61-88 | the laws force the sum to be the maximum |
| `Confidence.TimesBelow` | src/iknos/core/confidence.py:61-88 | the laws force a product below each factor, which makes cycles harmless |
| `Confidence.CombineBody` | src/iknos/core/confidence.py:90-99 | the fold over a body is the same in every order and stays in [0, 1] |
| `Valuation.SettleOneMore` | src/iknos/core/confidence.py:180-203 | every round settles the highest node still unsettled |
| `Valuation.ConvergesInNodeManyRounds` | src/iknos/core/confidence.py:194-203 | after as many rounds as nodes nothing moves, on every cyclic graph and lawful semiring |
| `Valuation.Valuate` | src/iknos/core/confidence.py:136-207 | the engine never raises, stops within one round more than it has nodes, and returns the least solution of the grounding equations |
| `Valuation.CombineAlternatives` | src/iknos/core/confidence.py:101-108 | the sum over a node's grounds is the best of them |
| `Valuation.LeastFixpointIsUnique` | src/iknos/core/confidence.py:136-203 | the least solution is one |
| `Valuation.ConfidenceGrows` | src/iknos/core/confidence.py:136-203 | a graph with more facts, rules and certified nodes, none of them weaker, scores no node lower |
| `ProofTrees.ValueIsBestProof` | src/iknos/core/confidence.py:136-203 | a node's value bounds the weight of each of its finite proof trees inside the support and, if positive, is the weight of one |
| `ProofTrees.PositiveIffFounded` | src/iknos/core/confidence.py:150-160 | with positive inputs a node scores above zero exactly when it is derivable from base facts, so an unfounded cycle scores zero even if it is passed in |
| `ProofTrees.ShippedSemiringsAreZeroFree` | src/iknos/core/confidence.py:113-128 | neither shipped semiring multiplies two positive degrees to zero, which the last statement asks for |
| `ProofTrees.CertifiedIsFounded` | src/iknos/core/confidence.py:150-160 | every node Layer A certifies is founded, so every certified node scores above zero on positive inputs |
| `WeakestLink.WeakestAntecedent` | src/iknos/core/confidence.py:90-99 | under Gödel a body of at least one antecedent is worth exactly its weakest one |
| `WeakestLink.TwoAntecedents` | src/iknos/core/confidence.py:113-128 | two antecedents are worth their product under Viterbi and the lesser of them under Gödel |
| `WeakestLink.CutDecides` | src/iknos/core/confidence.py:126-133 | under Gödel a node scores at least theta exactly when the facts and rules of degree at least theta alone support it |
| `WeakestLink.ValueIsAnInput` | src/iknos/core/confidence.py:126-133 | under Gödel every score is one of the degrees put in, or zero or one |
| `WeakestLink.GodelChainScores` | src/iknos/core/confidence.py:126-129 | depth-neutral: along a chain of rules of one strength every node scores the lesser of that strength and the first node |
| `WeakestLink.ViterbiChainScores` | src/iknos/core/confidence.py:122-124 | depth-biased: under Viterbi the i-th node of the chain scores the first one times the strength to the i |
| `DerivationOrder.SortedIsUnique` | src/iknos/core/derivation_adapter.py:196-204 | two sorted lists of the same derivations are equal |
| `DerivationOrder.SortedRises` | src/iknos/core/derivation_adapter.py:202 | the sorted list rises by conclusion id, then by the ascending bodies at the first id where they differ |
| `DerivationAdapter.AssembleSubgraph` | src/iknos/core/derivation_adapter.py:135-205 | the regrouping loops build the subgraph the rows denote: active facts, one rule per group with an active conclusion and all its antecedents, the weakest edge strength |
| `ActiveRows.FactsExactly` | src/iknos/core/derivation_adapter.py:165-176 | a node is a base fact exactly when it is evidenced and its last row names an active box, or there is no filter; it brings that row's confidence |
| `ActiveRows.RulesExactly` | src/iknos/core/derivation_adapter.py:178-198 | a rule stands exactly when it gathers the antecedents of the rows of one group id, or of one conclusion without an id, and that conclusion's last row is active |
| `ActiveRows.StrengthIsTheWeakestEdge` | src/iknos/core/derivation_adapter.py:189-200 | where the groups writing a rule agree, its strength is that of the weakest edge of the group |
| `ActiveRows.ClosedBoxIsSilent` | src/iknos/core/derivation_adapter.py:146-156 | a node outside the active boxes is no base fact, concludes nothing, is neither supported nor scored, and no rule that asks for it fires |
| `ActiveRows.ClosingBoxesUnsupports` | src/iknos/core/derivation_adapter.py:153-156 | closing the boxes of an antecedent of each of its rules unsupports an unevidenced conclusion |
| `DerivationAdapter.SupportAndConfidence` | src/iknos/core/derivation_adapter.py:208-233 | Layer A certifies and Layer B scores exactly the certified set, at the least solution |
| `DerivationAdapter.RetractionIsAntitone` | src/iknos/core/revision_loop.py:182-187 | retracting nodes, closing boxes or losing evidence, rows fixed, enlarges no support and raises no confidence, end to end |
| `RowOrder.GroupIgnoresOrder` | src/iknos/core/derivation_adapter.py:178-205 | body and strength of a group depend neither on row order nor on other groups, nor does the conclusion when its rows agree on one |
| `RowOrder.AssemblyIgnoresRowOrder` | src/iknos/core/derivation_adapter.py:162-163 | if no group names an active conclusion beside another and the groups writing one active rule agree on its strength, any list of the same rows assembles the same subgraph |
| `StableAssembly.StableExactlyWhen` | src/iknos/core/derivation_adapter.py:162-163 | the assembled subgraph is the same for every order of the rows if and only if those two conditions hold |
| `RowOrder.OrderCanDecideTheStrength` | src/iknos/core/derivation_adapter.py:189-200 | two groups writing one rule with strengths 0.1 and 0.9: the order of the two rows decides which strength is kept |
| `CurrentRead.CurrentRules` | src/iknos/core/derivation_adapter.py:329-353 | after the row read a rule is a contract rule without its retracted antecedents, gone if none is left |
| `CurrentRead.ReadKeepsSupport` | src/iknos/core/derivation_adapter.py:341 | the read never loses support, and gives the contract's support exactly when no shrunken rule rests on supported antecedents under an unsupported conclusion |
| `CurrentRead.ReadIsExactWhenUntouched` | src/iknos/core/derivation_adapter.py:341 | the read assembles the contract's very subgraph exactly when no edge from an active, unretracted node leads into a retracted one |
| `CurrentRead.ReadScoresNoLower` | src/iknos/core/derivation_adapter.py:341 | if the read gives no rule both assemblies have less strength, it scores no supported node lower than the contract |
| `CurrentRead.AgreeingReadWeakensNothing` | src/iknos/core/derivation_adapter.py:197-200 | the read weakens no rule if the groups that read down to one active rule agree on its strength |
| `RevivingRead.ReadRevivesAConclusion` | src/iknos/core/derivation_adapter.py:150-156 | a two-antecedent rule with one antecedent retracted: unsupported by the contract, supported by the read |
| `RevivingRead.ReadRaisesConfidence` | src/iknos/core/derivation_adapter.py:150-156 | with the support unchanged, the read raises a conclusion from 0.3 to 1 |
| `RevivingRead.ReadLowersConfidence` | src/iknos/core/derivation_adapter.py:150-156 | and lowers one from 0.9 to 0.1 where two groups read down to the same rule |
| `Derive.ValueConclusion` | src/iknos/core/derive.py:190-227 | the two annotations are the grounding count and least-solution confidence of the conclusion in the augmented graph, or zero if it is unsupported there |
| `ConclusionWorth.ConclusionIsWorth` | src/iknos/core/derive.py:204-207 | in terms of the graph before the proposal: one grounding and the step strength times the premises' confidences if all of them are supported, otherwise zero and zero |
| `Derive.WrittenAsValued` | src/iknos/core/derive.py:294-328 | reassembling the written rows, as written or in any order if the order of the old ones does not show, gives the graph the conclusion was valued on if the proposal has a premise and its box is active, and otherwise the graph as it was |
| `Derive.WriteAgreesWithValue` | src/iknos/core/derive.py:275-328 | where every written edge comes back, the stored annotations are those of the reassembled graph exactly when the proposal has a premise and either its box is active or some premise is unsupported |
| `Derive.OthersUnchangedByWrite` | src/iknos/core/derive.py:275-328 | no other node's support, count or confidence changes, whatever the premises, the box and the stored rows |
| `Deriver.LoadAgreesExactlyWhen` | src/iknos/core/derive.py:275-328 | with the next load dropping edges into retracted premises, the stored annotations are those of that load exactly when there is a premise and: box active, no premise is retracted or all are or a standing one is unsupported; box inactive, some premise is unsupported |
| `Deriver.OthersUnchangedByLoad` | src/iknos/core/derive.py:275-328 | nor does the next load change any other node's annotations |
| `Deriver.DeriveConclusion` | src/iknos/core/derive.py:275-328 | load, value and write: the stored row carries what the conclusion is worth in the loaded graph, and it agrees with the next load under that condition, for the row and edges actually written |
| `GradualSemantics.ProbSum` | src/iknos/core/qbaf.py:144-150 | the loop computes one minus the product of the misses |
| `GradualSemantics.DfQuadIsLawful` | src/iknos/core/qbaf.py:144-189 | DF-QuAD is closed on [0, 1], balanced, order-free, never lowered by a supporter, and 1-Lipschitz |
| `GradualSemantics.PhiSlope` | src/iknos/core/qbaf.py:170-174 | the quadratic squash rises, by at most 3/4 of its argument |
| `GradualSemantics.QuadraticEnergyIsLawful` | src/iknos/core/qbaf.py:165-199 | Quadratic Energy obeys the same laws with constant 3/4 |
| `Verdicts.WeighsDfQuad` | src/iknos/core/qbaf.py:307-313 | a sweep under DF-QuAD, from the edges as given: what an argument lacks, or has, shrinks by the surplus of doubt one side leaves over the other |
| `Verdicts.WeighsQuadraticEnergy` | src/iknos/core/qbaf.py:307-313 | under Quadratic Energy it shrinks by one plus the square of the surplus of mass |
| `Verdicts.ReadOffWeighs` | src/iknos/core/qbaf.py:334-364 | the aggregates read off are one minus the doubt, or the mass, that all live edges into the argument leave at the given strengths |
| `Verdicts.FanUnderDfQuad` | tests/unit/test_qbaf_semantics.py:29-59 | a hypothesis with n leaf supporters of weight c lacks (1 - c) to the n of what it lacked, and n attackers leave it that share of what it had, at every bound and tolerance |
| `Verdicts.FanUnderQuadraticEnergy` | tests/unit/test_qbaf_semantics.py:61-64 | under Quadratic Energy the same reasons divide it by one plus the square of n times c |
| `Verdicts.SemanticsRank` | tests/unit/test_qbaf_semantics.py:29-64 | of two such hypotheses DF-QuAD ranks first exactly the one left with less doubt, Quadratic Energy the one with more mass, so one strong reason and many weak ones change places |
| `Qbaf.IncomingIndex` | src/iknos/core/qbaf.py:242-259 | every edge is range-checked, dangling or not, and each argument gets its live edges in order |
| `Qbaf.LargestChange` | src/iknos/core/qbaf.py:317 | the stopping quantity is the largest change, zero without arguments |
| `Qbaf.Solve` | src/iknos/core/qbaf.py:262-330 | an error exactly on a bad bound, score or strength; else the first sweep within tolerance, or the last one with exactly the arguments the next sweep still moves |
| `Qbaf.RegionIsEmptyWhenNextSweepSettles` | src/iknos/core/qbaf.py:211-228 | an unresolved result names no region exactly when one more sweep would settle it |
| `Qbaf.AggregateEvidence` | src/iknos/core/qbaf.py:345-364 | each argument's two aggregates at the given strengths, a missing source counting nothing |
| `QbafDynamics.IteratesInUnit` | src/iknos/core/qbaf.py:300-330 | no strength leaves [0, 1] at any sweep |
| `QbafDynamics.UpdateLipschitz` | src/iknos/core/qbaf.py:307-314 | one sweep moves an argument by at most the semantics' constant times its incoming weight times the largest difference |
| `QbafDynamics.ConvergedResidual` | src/iknos/core/qbaf.py:316-321 | a converged result solves the equations up to gain times tolerance |
| `QbafDynamics.ConvergesWhenGainIsOutlasted` | src/iknos/core/qbaf.py:316-330 | on every framework the solver converges once the gain to the power of the bound less one is within the tolerance |
| `QbafDynamics.ContractionHasOneFixpoint` | src/iknos/core/qbaf.py:279-288 | below gain one two fixpoints are equal |
| `QbafDynamics.IteratesApproach` | src/iknos/core/qbaf.py:279-288 | sweep k is within gain to the k of any fixpoint |
| `QbafDynamics.IteratesIgnoreEdgeOrder` | src/iknos/core/qbaf.py:275-278 | reordering the edges changes no sweep |
| `QbafAcyclic.FinalFromDepth` | src/iknos/core/qbaf.py:280-281 | an argument no longer path reaches is final from its depth on |
| `QbafAcyclic.ExactAfterDepth` | src/iknos/core/qbaf.py:280-281 | a framework of depth d is exactly at a fixpoint after d sweeps |
| `QbafAcyclic.AcyclicFixpointIsUnique` | src/iknos/core/qbaf.py:280-281 | and that fixpoint is the only one |
| `QbafAcyclic.AcyclicConverges` | src/iknos/core/qbaf.py:214-216 | a bound above the depth is enough, and tolerance zero gives the exact fixpoint |
| `QbafAcyclic.AcyclicAlwaysConverges` | src/iknos/core/qbaf.py:214-216 | without cycles, one sweep per argument is enough |
| `QbafAcyclic.AddingSupportNeverLowers` | src/iknos/core/qbaf.py:153-162 | a new supporter of an argument on no cycle lowers it at no sweep |
| `QbafAcyclic.AddingSupportNeverLowersTheVerdict` | src/iknos/core/qbaf.py:153-162 | nor at the fixpoint of an acyclic framework |
| `QbafAcyclic.RegionIsFedByACycle` | src/iknos/core/qbaf.py:211-228 | given a sweep per argument, every argument an unresolved result names lies on a cycle or downstream of one |
| `SupportChain.ChainIsUnresolved` | src/iknos/core/qbaf.py:323-330 | a chain of d certain support steps solved with a bound of at most d is unresolved and names the one argument the next sweep lifts, none if the bound is d |
| `SupportChain.SettlesExactlyBeyondDepth` | src/iknos/core/qbaf.py:280-281 | under DF-QuAD every checked framework of depth at most d converges within m sweeps exactly when m exceeds d |
| `SupportChain.SettlesExactlyWithASweepEach` | src/iknos/core/qbaf.py:214-216 | and every checked acyclic one of at most n arguments exactly when m is at least n |
| `Oscillation.RefutationStep` | scripts/b2_cyclic_oscillation.py:95-103 | the i-th step of mutual refutation at base b over edges of strength w has size b times (b w) to the i |
| `Oscillation.RefutationOutcome` | scripts/b2_cyclic_oscillation.py:121-145 | the loop converges within the bound exactly when the step at the bound is within tolerance, stops at the first such sweep, and otherwise names both arguments or, if the next sweep would settle, none |
| `Oscillation.RefutationComesNear` | scripts/b2_cyclic_oscillation.py:121-128 | a converged loop lies within the tolerance, over 1 + b w, of the balance b / (1 + b w) |
| `Oscillation.CriticalRefutationNeverSettles` | scripts/b2_cyclic_oscillation.py:129-138 | at base and strength one it alternates forever and the whole loop is named |
| `Oscillation.QuadraticEnergyRefutationConverges` | scripts/b2_cyclic_oscillation.py:565-572 | under Quadratic Energy the same loop has gain 3/4 and converges |
| `Oscillation.MixedFeedbackTurns` | scripts/b2_cyclic_oscillation.py:146-158 | support one way and refutation the other has an orbit of period four |
| `Oscillation.MixedFeedbackNeverSettles` | scripts/b2_cyclic_oscillation.py:146-158 | so it never converges |
| `Oscillation.ReadsBack` | scripts/b2_cyclic_oscillation.py:217-231 | a bound of k reads the k-th state up to the first settling sweep, and that state ever after |
| `Oscillation.ReconstructTrajectory` | scripts/b2_cyclic_oscillation.py:217-231 | so the reconstructed trajectory is the true one, frozen at the first settling sweep |
| `Oscillation.ReadBackIsFrozen` | scripts/b2_cyclic_oscillation.py:217-231 | one sweep after damped refutation settles within a positive tolerance, the state read back is not the true one |
| `MutualSupport.SupportIterates` | scripts/b2_cyclic_oscillation.py:117-125 | each sweep of mutual support adds its rise to both |
| `MutualSupport.RisenIs` | scripts/b2_cyclic_oscillation.py:117-125 | with q = (1 - b) w the rises sum up to (1 - q) v = b - b q to the k+1 after k sweeps |
| `MutualSupport.SupportOutcome` | scripts/b2_cyclic_oscillation.py:117-125 | the loop converges within the bound exactly when b times q to the bound is within tolerance, stops at the first such sweep, and otherwise names both arguments or, if the next sweep would settle, none |
| `MutualSupport.ConvergedFallsShortBy` | tests/unit/test_qbaf_adjudication.py:46-58 | a converged loop stops short of its fixpoint b / (1 - q) by at most the tolerance times q / (1 - q) |
| `Locality.PartIterates` | src/iknos/core/qbaf.py:300-330 | arguments that take evidence only from one another have, sweep for sweep, the strengths they would have alone |
| `Locality.CompositeRegion` | scripts/b2_cyclic_oscillation.py:163-179 | a support loop beside a critical refutation is never converged, and the region named is the refutation, with the support only while it still rises by more than the tolerance |
| `SettleCriterion.FlatExactlyWithoutVariance` | src/iknos/trials/oscillation.py:57-72 | the variance is never negative, and zero exactly when nothing moved over the window |
| `SettleCriterion.AlternatingVariance` | src/iknos/trials/oscillation.py:57-71 | a strength that switches between two values has, over an even window, the square of half their distance for a variance |
| `SettleCriterion.CriticalRefutationIsFlagged` | scripts/b2_cyclic_oscillation.py:129-138 | the engine's own limit cycle is flagged, over any even window, exactly at thresholds below one quarter |
| `SettleCriterion.QuietAtZeroExactlyWhenFlat` | src/iknos/trials/oscillation.py:101-108 | at threshold zero the test is quiet exactly when no argument moved over the window |
| `SettleCriterion.CriterionSettleCap` | scripts/b2_cyclic_oscillation.py:234-249 | the smallest cap from which the variance test stays quiet to the horizon, none exactly if it is not quiet there |
| `PartWhole.AcyclicEdges` | src/iknos/core/partwhole.py:145-184 | the nodes set aside are exactly those that can reach a cycle of two or more, the kept edges exactly the rest |
| `PartWhole.SetAsideExactlyWhen` | src/iknos/core/partwhole.py:150-156 | a node is set aside exactly when some walk up from it meets a node twice |
| `PartWhole.KeptExactlyWhen` | src/iknos/core/partwhole.py:182-183 | an edge takes part exactly when it is no loop and no walk up from its part repeats itself |
| `PartWhole.SetAsideWithoutACycle` | src/iknos/core/partwhole.py:153-156 | a part of something caught in a cycle is set aside although no cycle runs through it |
| `PartWhole.KeptReachability` | src/iknos/core/partwhole.py:145-184 | dropping edges loses no ancestor of a node that is not set aside |
| `PartWhole.KeptIsAcyclic` | src/iknos/core/partwhole.py:145-184 | no kept node is above itself |
| `PartWhole.Ancestors` | src/iknos/core/partwhole.py:204-214 | the memoised search terminates with exactly the ancestors, and its memo stays right |
| `PartWhole.TransitiveClosure` | src/iknos/core/partwhole.py:187-220 | the closure is exactly reachability over the kept edges, a function of the set of edges alone |
| `PartWhole.PartOfIsAStrictOrder` | src/iknos/core/partwhole.py:187-220 | part-of is irreflexive, transitive and asymmetric |
| `PartWhole.DerivedLevel` | src/iknos/core/partwhole.py:223-231 | the level counts the node's wholes |
| `PartWhole.PartsLieDeeper` | src/iknos/core/partwhole.py:223-231 | a part lies strictly deeper than its whole |
| `Candidates.EmbeddingKnn` | src/iknos/core/candidates.py:281-355 | the oracle keeps each node's best distance over all comparable pairs, the hypothesis itself left out, drops what is below the similarity floor if one is set, and returns the k nearest, ties by id |
| `NearestNodes.NearestExactly` | src/iknos/core/candidates.py:297-355 | from the rows and vectors alone: a node is answered exactly when it is not the hypothesis, its nearest comparable row is similar enough, and fewer than k such nodes are nearer or as near with a smaller id; the list is in that order |
| `Candidates.FloorShortens` | src/iknos/core/candidates.py:302-305 | a floor leaves exactly the part of the unfloored answer that is similar enough, which is its beginning; without one nothing is dropped |
| `Candidates.EmbeddingKnnPushdown` | src/iknos/core/candidates.py:668-693 | the push-down does the same over the rows the database returned |
| `Pushdown.HeadIsExact` | src/iknos/core/candidates.py:637-660 | for any number of query vectors and at most m propositions per node, the first ceil(k/m) nodes are the exact ones in the exact order |
| `Pushdown.PushdownIsExact` | src/iknos/core/candidates.py:637-660 | so with one proposition per node the whole list is exact |
| `Pushdown.NearestIsExact` | src/iknos/core/candidates.py:637-660 | and with one candidate asked for, the answer is exact for any number of query vectors and propositions |
| `Pushdown.PushdownIsAPrefix` | src/iknos/core/candidates.py:637-660 | with one query vector and any number of propositions per node, a prefix of the exact ranking |
| `Pushdown.SubsetExactlyWhen` | src/iknos/core/candidates.py:643-646 | the subset promise holds of every tie-free store with up to q query vectors and m propositions per node exactly when q, m or k is at most one |
| `Pushdown.CrowdedOut` | src/iknos/core/candidates.py:643-646 | for every k above one, a store with two query vectors and one node of two propositions from which the push-down returns a node outside the exact k |
| `ComposedLoop.Stabilize` | src/iknos/core/composed_loop.py:95-165 | the verdict, state, trajectory and cycle of one bounded run |
| `ComposedLoop.ConvergedStandsStill` | src/iknos/core/composed_loop.py:140-147 | converged: the unbounded run stands still from there |
| `ComposedLoop.OscillationGoesRound` | src/iknos/core/composed_loop.py:149-158 | oscillating: at least two distinct states, which the unbounded run walks round forever |
| `ComposedLoop.SmallSpacesNeverDiverge` | src/iknos/core/composed_loop.py:160-165 | diverged is impossible when the key space is no larger than the bound |
| `ComposedLoop.AccumulationConverges` | src/iknos/core/revision_loop.py:123-126 | an accumulating step converges if the bound exceeds the number of addable elements |
| `ComposedLoop.AccumulationNeedsTheBound` | src/iknos/core/revision_loop.py:123-126 | with one iteration fewer it can be reported as diverged |
| `PropositionLog.IdentityMeansVerified` | src/iknos/core/proposition.py:1091-1148 | a sound span that answers with a verifier has, on each present proposition, the score of a verdict of that verifier, or was replayed under its name |
| `PropositionLog.PersistKeepsSound` | src/iknos/core/proposition.py:902-989 | extraction keeps the store sound: verifier on or off, clean or degraded, with or without a purge |
| `PropositionLog.ReverifyKeepsSound` | src/iknos/core/proposition.py:1186-1250 | so does re-verification in place |
| `PropositionLog.ReplayKeepsSound` | src/iknos/core/proposition.py:828-900 | a replay keeps the store sound: flags match scores, the extract action lists the copies, no old verification speaks for them |
| `PropositionLog.ReplayIsBackedExactlyWhen` | src/iknos/core/proposition.py:871-885 | a replayed span answers with its source's verifier, backed by scores exactly when there is nothing to score, no verifier to name, or the source was fully scored by the present one |
| `PropositionLog.GateExactlyWhen` | src/iknos/types/epistemic.py:314-357 | the verdict lets a proposition through the gate exactly when it is entailed, its polarity is kept, and agreement times parse quality is at least one half, or five sevenths if a hedge was flattened; a contradicted claim scores zero |
| `PropositionLog.DefectsMultiply` | src/iknos/types/epistemic.py:314-357 | a dropped negation, a flattened hedge and a neutral verdict each scale the score by a fixed factor, whatever the others do |
| `Proposition.SpanStore.Persist` | src/iknos/core/proposition.py:902-989 | one extraction transaction: purge, fresh propositions, extract action, verify action if there is anything to verify |
| `Proposition.SpanStore.RecordVerifyAction` | src/iknos/core/proposition.py:991-1049 | the identity is stamped only if no verdict is missing |
| `Proposition.SpanStore.VerifyBackfillSpan` | src/iknos/core/proposition.py:1186-1250 | re-scores the present propositions in place and records the action, or writes nothing for an empty span |
| `Proposition.SpanStore.BackfillVerification` | src/iknos/core/proposition.py:1150-1184 | re-verifies exactly the spans whose identity differs, skipping those that raise |
| `Proposition.SpanStore.PersistReplay` | src/iknos/core/proposition.py:828-900 | one replay transaction: purge, copies with or without their scores, extract action with the source's identity |
| `Proposition.SpanStore.Triage` | src/iknos/core/proposition.py:1380-1436 | each owed span is to be inferred or replayed, with what superseded it, or the first refusal ends the run: a mismatched embedding model, a stale span without cascade, dependents |
| `Proposition.SpanStore.PropositionizeDocument` | src/iknos/core/proposition.py:1364-1594 | a whole run with guard, inference, replay and re-verification, its first refusal with nothing written, exactly the failed spans and the re-verified ones reported |
| `RunEffects.RefusingSpanIs` | src/iknos/core/proposition.py:1395-1420 | the span phase refuses exactly when some span was last extracted under another hash and must not or may not be extracted again, and names the first such span |
| `RunEffects.RefusedExactlyWhen` | src/iknos/core/proposition.py:1380-1421 | a run is refused exactly then or when a stored vector is of another model, and leaves the store as it was |
| `RunEffects.RunKeepsProtected` | src/iknos/core/proposition.py:1410-1420 | no run removes or reorders a proposition of a span with dependents, nor with cascading off of any span |
| `RunEffects.HistoryKeepsProtected` | src/iknos/core/proposition.py:589-596 | and so over every history of runs |
| `SpanContents.InferredSpanHolds` | src/iknos/core/proposition.py:902-927 | a span inferred in a run that is not refused ends with exactly its claims, new, in order, in the run's embedding space |
| `SpanContents.ReuseExactly` | src/iknos/core/reuse.py:186-253 | what is replayed is the newest extraction under the span's hash, exactly if its source still holds every proposition it listed |
| `SpanContents.NothingToReuse` | src/iknos/core/reuse.py:205-216 | where no extraction ran under the hash, nothing is replayed |
| `SpanContents.ReplayedSpanHolds` | src/iknos/core/proposition.py:766-900 | a replayed span ends with those propositions; their scores are kept if the source's verifier is the present one, and are none otherwise without a verifier |
| `SpanContents.OtherSpanKeeps` | src/iknos/core/proposition.py:1401-1405 | a span not owed, or whose attempt failed, keeps its propositions; only a re-verification moves their scores |
| `SpanContents.FailedExactlyWhen` | src/iknos/core/proposition.py:1374-1379 | the report names as failed exactly the spans that were owed and whose inference, replay or write raised |
| `SpanContents.BackfilledExactlyWhen` | src/iknos/core/proposition.py:1150-1184 | and the verification pass re-scores exactly the spans that hold a proposition under another identity than the present verifier's and whose update does not raise |
| `SpanContents.SupersededAreNamed` | src/iknos/core/proposition.py:616-631 | the audit trail: the newest extraction of a span that went through names exactly the propositions it held before as superseded, and those it holds now as its own |
| `EmbeddingSpace.RunKeepsOneSpace` | src/iknos/core/proposition.py:664-684 | given any one vector of the document to look at, the guard keeps the document in one embedding space through whatever the run infers, replays or re-scores |
| `EmbeddingSpace.EveryHistoryKeepsOneSpace` | src/iknos/core/proposition.py:664-684 | over every history of runs no document mixes vectors of two models |
| `Proposition.RunKeepsSound` | src/iknos/core/proposition.py:1364-1594 | every run keeps the store sound, whatever raises, degrades or is rolled back |
| `Proposition.IdentityIsBackedInEveryHistory` | src/iknos/core/proposition.py:1091-1148 | over every history of runs, with any verifiers and outcomes, an answered identity is backed by its scores or comes from a replay under that name |
| `Proposition.IdentityIsBackedWithoutReuse` | src/iknos/core/proposition.py:1091-1148 | over every history without reuse an answered identity is backed by its scores |
| `Proposition.RunTouchesItsSpans` | src/iknos/core/proposition.py:1364-1594 | no span outside the document changes |
| `Proposition.FailedSpanIsRetried` | src/iknos/core/proposition.py:1527-1585 | a span whose inference, replay or write failed keeps its propositions and is owed again |
| `Proposition.CleanRunSettles` | src/iknos/core/proposition.py:1364-1594 | after a clean run every span is extracted and verified as configured |
| `Proposition.RepeatedRunWritesNothing` | src/iknos/core/proposition.py:1388-1421 | repeating a clean run on unchanged inputs leaves the store as it is, whatever the second run would meet |
| `ReplayedIdentity.RunBacksExactlyWhen` | src/iknos/core/proposition.py:1364-1594 | a run leaves a span without an unbacked identity if and only if its replay, or the re-verification of what stood there, leaves it so, each case a test on the source, the verifier and the verdicts |
| `ReplayedIdentity.SettledSpanIsLeftAlone` | src/iknos/core/proposition.py:1167-1170 | a run leaves alone whatever its settings count as extracted and verified |
| `ReplayedIdentity.SettledForGood` | src/iknos/core/proposition.py:1167-1170 | and so does every series of runs under one verifier and hash |
| `ReplayedIdentity.ReplayWithoutVerifierIsNeverAssessed` | src/iknos/core/proposition.py:879-885 | a replay made with the verifier off is stamped with the source's verifier, and no later run under that verifier ever scores it |
| `ReplayedIdentity.ReplayOfAnUnverifiedGenerationIsNeverAssessed` | src/iknos/core/reuse.py:160-181 | nor one made with it on, if the source was re-extracted unverified since its last verification |
| `Parse.CheckGrid` | src/iknos/core/parse.py:219-239 | a table is accepted exactly when its cells fit the grid and no position is claimed twice |
| `Parse.GridFitsExactly` | src/iknos/core/parse.py:208-239 | that is, when the cells are rectangles inside the grid of which any two lie apart |
| `Parse.CharRanges` | src/iknos/core/parse.py:366-380 | the cursor loop yields the derived ranges |
| `Parse.RangeSlicesElement` | src/iknos/core/parse.py:366-372 | each range slices its element out of the text |
| `Parse.RangesTile` | src/iknos/core/parse.py:366-372 | ranges start at zero, end with the text, and leave two characters between one another |
| `Parse.SeparatorIsBetween` | src/iknos/core/parse.py:350-372 | between two ranges stands exactly an empty line |
| `Parse.FromOffsets` | src/iknos/core/parse.py:391-470 | accepted exactly when offsets are in bounds, ordered, skip only white space, and give well-formed elements |
| `Parse.RoundTrip` | src/iknos/core/parse.py:391-470 | a result's own text and ranges are accepted and rebuild it |
| `Parse.NothingReadIsLost` | src/iknos/core/parse.py:409-414 | an accepted parse keeps the blob's non-white-space characters, in order |
| `Parse.CellKeepsItsText` | src/iknos/core/parse.py:570-580 | a rebased table cell slices out the text it had in its element |
| `Parse.LayoutsForSpans` | src/iknos/core/parse.py:557-621 | each span's regions, or none |
| `Parse.RegionKeepsItsElement` | src/iknos/core/parse.py:570-621 | a region names its element and carries its parse; each table cell is moved to where its text lies in the document and keeps everything else |
| `Parse.RegionsAreTheOverlaps` | src/iknos/core/parse.py:560-568 | those regions are exactly the elements with a page region or a table some character of which lies in the span |
| `Windows.PlanWindows` | src/iknos/core/embeddings.py:40-70 | terminates with full windows at multiples of the stride and the last one anchored to the end, or the error |
| `Windows.NeighboursOverlap` | src/iknos/core/embeddings.py:43-46 | starts rise and neighbours share at least the overlap |
| `Windows.EveryTokenIsCovered` | src/iknos/core/embeddings.py:43-46 | every token of the document lies in a window |
| `Windows.ShortStretchFits` | src/iknos/core/embeddings.py:43-46 | every stretch of at most overlap plus one tokens lies inside one window |
| `Windows.LongerStretchMayBeCut` | src/iknos/core/embeddings.py:43-46 | one token more, and a stretch across the first seam fits nowhere |
| `Windows.PoolSpan` | src/iknos/core/embeddings.py:196-217 | the first window with tokens of the span in which it is most interior, or none |
| `Windows.InteriorExactly` | src/iknos/core/embeddings.py:202 | interior by m means that the window covers the span with m characters cut off either end |
| `Windows.PooledExactlyWhen` | src/iknos/core/embeddings.py:199 | a token is pooled exactly when one of its characters is in the span, a special one never |
| `Windows.CoveringWindowIsChosen` | src/iknos/core/embeddings.py:179-188 | if a window with tokens of the span covers it, the chosen one does |
| `EdgeJudge.Permute` | src/iknos/core/edge_judge.py:202-230 | the in-place shuffle is a permutation for every digest stream and never reads past its pool |
| `Shuffle.EveryOrderCanCome` | src/iknos/core/edge_judge.py:208-230 | every order of up to 2^32 items is the shuffle of some digest stream |
| `EdgeJudge.SampleSigns` | src/iknos/core/edge_judge.py:338-358 | the first verdict per position is put back at its item, a missing one reads as irrelevant |
| `EdgeJudge.SignExactly` | src/iknos/core/edge_judge.py:348-357 | the first verdict on a position counts, none reads as irrelevant |
| `EdgeJudge.OrderDoesNotMatter` | src/iknos/core/edge_judge.py:205-212 | two panel members blind to position agree on every item whatever orders they saw |
| `EdgeJudge.VotesAreVoters` | src/iknos/core/edge_judge.py:390-394 | an item's votes for a sign are the panel members who gave it that sign |
| `EdgeJudge.JudgeHypothesis` | src/iknos/core/edge_judge.py:390-436 | each item is judged or dropped, never both, in order; votes sum to the panel, a survivor has at least a third of them, its opinion commits votes/(votes+2) scaled by the reliability and leans by half their margin; refused exactly when a survivor's reliability is out of range |
| `EdgeJudge.StrengthOfAnEdge` | src/iknos/core/edge_judge.py:112-124 | a written edge is never below even odds nor certain, and at even odds exactly for a worthless source or an evenly split panel |
| `EdgeJudge.NoEdgeIsDogmatic` | src/iknos/core/edge_judge.py:412-415 | no panel of fewer than two thousand million votes yields a dogmatic opinion |
| `SubjectiveLogic.EncodingKeepsOdds` | src/iknos/core/subjective_logic.py:137-174 | non-negative counts and a positive prior weight are never refused, the masses sum to one, and their odds are the counts per unit of prior weight |
| `SubjectiveLogic.DecodeThenEncode` | src/iknos/core/subjective_logic.py:137-174 | encoding the evidence read back from an opinion gives the opinion again |
| `SubjectiveLogic.DiscountPullsToTheBaseRate` | src/iknos/core/subjective_logic.py:177-202 | for every accepted opinion: refused exactly if the reliability is out of range or keeps more than one; what it leaves is exact, its distance from the base rate scaled by the reliability; exact opinions are never refused and gain no certainty |
| `SubjectiveLogic.DiscountsCompose` | src/iknos/core/subjective_logic.py:177-202 | a second discount on what the first left is one discount by the product |
| `SubjectiveLogic.FullReliabilityIsTheIdentityExactlyWhen` | src/iknos/core/subjective_logic.py:189-193 | full reliability is the identity exactly on opinions whose masses sum to one without slack |
| `SubjectiveLogic.NoReliabilityIsVacuous` | src/iknos/core/subjective_logic.py:189-193 | a source that counts for nothing leaves the vacuous opinion of the same base rate |
| `SubjectiveLogic.FusingFusesOdds` | src/iknos/core/subjective_logic.py:217-268 | on exact opinions that leave something open, not both within the tolerance, cumulative fusion adds odds and averaging takes their mean |
| `SubjectiveLogic.ExactFusion` | src/iknos/core/subjective_logic.py:217-284 | exact opinions are never refused, dogmatic or not, and fuse to an exact one unless both were rounded to dogmatic ones |
| `SubjectiveLogic.ClosedAbsorbs` | src/iknos/core/subjective_logic.py:228-241 | an opinion of zero uncertainty absorbs any that is not dogmatic, under either fusion and from either side |
| `SubjectiveLogic.CumulativeRefusesSlack` | src/iknos/core/subjective_logic.py:217-241 | two accepted opinions whose masses exceed one by the whole tolerance are refused when fused cumulatively |
| `OpinionFusion.FusionCommutesExactlyWhen` | src/iknos/core/subjective_logic.py:205-214 | either fusion commutes exactly on equal base rates, refusals apart |
| `OpinionFusion.AveragingIsIdempotentExactlyWhen` | src/iknos/core/subjective_logic.py:247-249 | averaging an opinion with itself gives it back exactly unless its uncertainty is positive but within the tolerance |
| `OpinionFusion.WhatFusionLeavesOpen` | src/iknos/core/subjective_logic.py:217-268 | for every two accepted opinions: cumulative fusion leaves no more open than either, as much as the first exactly if that leaves nothing or the other is vacuous; averaging leaves no more than the more open one, and no less than the sharper one unless both are above zero and within the tolerance |
| `OpinionFusion.AveragingIsNotRefused` | src/iknos/core/subjective_logic.py:244-268 | averaging refuses no two comparable opinions, slack or not, unless both are dogmatic |
| `OpinionFusion.AveragingCanInventCertainty` | src/iknos/core/subjective_logic.py:248-250 | an opinion within the tolerance averaged with itself leaves nothing open |
| `OpinionFusion.Fuse` | src/iknos/core/subjective_logic.py:308-322 | the loop is the left fold, refusing the empty list and whatever a step refuses |
| `OpinionFusion.PoolsExactlyWhen` | src/iknos/core/subjective_logic.py:217-241 | fusing the opinions of any number of panels is the opinion of one panel with all their votes, if and only if no panel overwhelming by itself comes after votes overwhelming together |
| `OpinionFusion.CumulativeIgnoresOrder` | src/iknos/core/subjective_logic.py:311-313 | the cumulative fold of opinions above the tolerance is the same in every order |
| `FusionOrder.AveragingIgnoresOrderExactlyWhen` | src/iknos/core/subjective_logic.py:311-313 | the averaging fold of opinions all open or all closed, and any fold of closed ones, is the same in every order if and only if there are at most two or all are equal |
| `FusionOrder.FoldIgnoresOrderExactlyWhen` | src/iknos/core/subjective_logic.py:308-322 | either fold of open and closed opinions is the same in every order if and only if: none closed, and cumulative or at most two or all equal; some closed, of those at most two or all equal, and, if cumulative, the open ones fused together stay above the tolerance |
| `FusionOrder.DogmaticOrderShows` | src/iknos/core/subjective_logic.py:271-284 | three dogmatic opinions that fold to belief 0.25 in one order and 0.5 in another, under either fusion |
| `FusionOrder.AveragingInventsNoCertainty` | src/iknos/core/subjective_logic.py:248-250 | however many opinions are averaged, open or closed, some input leaves no more open than the result |
| `Clustering.ClusterInOrder` | src/iknos/core/consistency.py:100-125 | the loop computes the first-fit clusters |
| `Clustering.FirstFitPartitions` | src/iknos/core/consistency.py:100-125 | the clusters hold every item as often as it was given |
| `Clustering.FirstFitIsExact` | src/iknos/core/consistency.py:106-112 | a member is within the threshold of its own opener and below it for every earlier one |
| `Clustering.OrderOfArrivalDoesNotMatter` | src/iknos/core/consistency.py:94-97 | with distinct keys the clusters do not depend on the order of arrival |
| `Clustering.OrderFollowsSamples` | src/iknos/core/consistency.py:94-97 | the order is that of the samples, and within one that of the positions |
| `Clustering.PartitionedCounts` | src/iknos/core/consistency.py:128-151 | the partitioned clusters hold each candidate exactly as often as it was given |
| `Clustering.PolaritiesNeverMix` | src/iknos/core/consistency.py:131-141 | no cluster holds both a claim and its negation |
| `Clustering.ClusterPartitioned` | src/iknos/core/consistency.py:128-151 | the partitioned loop computes those clusters, group after group in sorted order |
| `Clustering.AssertedFirst` | src/iknos/core/consistency.py:128-151 | the groups of asserted claims come first, and within a polarity the classes rise |
| `Clustering.CanonicalOf` | src/iknos/core/consistency.py:216-237 | the most central member, the first on a tie |
| `Clustering.NobodyOutranks` | src/iknos/core/consistency.py:216-237 | a member at least as close to every third one as the canonical member is exactly as close to each, and comes later |
| `Clustering.FindTwins` | src/iknos/core/consistency.py:185-193 | the twin pairs and the flags of their halves |
| `Clustering.FlaggedExactlyWithATwin` | src/iknos/core/consistency.py:172-180 | a cluster is flagged exactly when some other cluster opposes it on the same claim |
| `Clustering.AgreementExactly` | src/iknos/core/consistency.py:204-213 | agreement times the number of samples is the number of different samples with a member in the cluster, up to one |
| `Clustering.ConsolidateSamples` | src/iknos/core/consistency.py:172-210 | per cluster its medoid, the share of samples that agree and the twin flag; an error exactly if there is a cluster and no sample |
| `ClaimKeys.AssignClaimKeys` | src/iknos/core/find_contradiction.py:143-177 | every proposition is keyed by its first-fit cluster among those of its own model, taken in id order |
| `Components.AggregateComponents` | src/iknos/core/component_aggregate.py:86-133 | one entry per component with supported evidence: its mentioned members, its nodes, their summed support and best confidence |
| `Components.OneNodeCounts` | src/iknos/core/component_aggregate.py:111-125 | a node alone brings its component the support count it was given, and its confidence if that is above zero |
| `Components.MergeConserves` | src/iknos/core/component_aggregate.py:117-133 | bringing two components under one representative unites the nodes, adds supports less the shared part, keeps the better confidence, and touches no other component |
| `Components.CanonicalMap` | src/iknos/core/component_aggregate.py:136-148 | an empty component is refused; otherwise exactly the members are mapped, each to the least of the last component that has it |
| `Components.DisjointMembersAreLeast` | src/iknos/core/component_aggregate.py:139-141 | components that do not overlap are mapped each to its own least member |
| `Resolve.UnionFind.Find` | src/iknos/core/resolve.py:246-253 | climbing and path compression end at the root of the class and change no class |
| `Resolve.UnionFind.Union` | src/iknos/core/resolve.py:255-256 | uniting two entities puts their two classes together and no others |
| `Resolve.UnionComponents` | src/iknos/core/resolve.py:236-264 | the components are exactly the classes of two or more entities that the pairs connect, disjoint and complete |
| `Resolve.OneMorePair` | src/iknos/core/resolve.py:236-264 | one more pair connects what was connected and the class of one end with that of the other |
| `Revision.Aggregate` | src/iknos/core/component_aggregate.py:178-208 | from the current SAME_AS edges to the aggregates, each entity standing for the least one it is connected to |
| `ComponentReasoning.AggregateActive` | src/iknos/core/component_aggregate.py:164-200 | the whole pass: oracle, valuation, union-find and aggregation of the active subgraph |
| `ComponentReasoning.ComponentIsGrounded` | src/iknos/core/component_aggregate.py:64-70 | a component's nodes are the supported ones that involve an entity connected to it, its support counts those that are base facts and the rules that fire for one, its confidence is the best Layer B gives one of them |
| `Revision.RepresentativesTellApart` | src/iknos/core/component_aggregate.py:136-148 | two entities share a representative exactly when the edges connect them |
| `Revision.AssertingConserves` | src/iknos/core/component_aggregate.py:202-239 | an asserted edge inside a component changes no aggregate; between two it merges them under the lesser representative and conserves their evidence |
| `Revision.RetractingDivides` | src/iknos/core/component_aggregate.py:241-264 | a retracted edge divides its component in two exactly when nothing else connects its ends |
| `Revision.SplitRestoresExactlyWhen` | src/iknos/core/component_aggregate.py:241-264 | asserting an identity and retracting it restores every aggregate exactly when the two were apart before, or hold together without the edge |

## Left out

- Float rounding: strengths, confidences and similarities are reals, so a convergence that floats
  reach only by rounding is not modelled.
- Storage: the graph and relational queries, migrations, sessions and concurrency within a run;
  reads are row sequences and each transaction is one step.
- Model, parser-service and embedding calls; their answers are arbitrary.
- `Proposition.SpanStore.PropositionizeDocument`: action metrics and audit fields no later step
  reads. A replay looks its propositions up on the source span, the only one they were ever written
  to.
- `FusionOrder.FoldIgnoresOrderExactlyWhen`: stated for opinions of one base rate whose masses sum to
  one and whose uncertainty is zero or above the tolerance, which every judged edge's is
  (`EdgeJudge.NoEdgeIsDogmatic`).
- Verdict banding, per-model recalibration (the identity in the program) and the ensemble gate.
- The outer loop over hypotheses of candidate generation, the structural
  stage and the funnel: each treats one hypothesis or one pair at a time.
- Anchored components: the taxonomy anchors folded into the identity components.
- Existence of a fixpoint on cyclic frameworks: over the reals it needs completeness. Uniqueness,
  the residual of a converged result and the rate of approach are proved.
- Action-log queries by timestamp: the log is a sequence and the latest entry is the last one.
- `DerivationAdapter.RetractionIsAntitone`: retraction is removal from the loaded nodes with the
  derivation rows held fixed, as the revision loop does it; the effect of the row read that also
  drops edges is stated separately in `CurrentRead`, and for a new conclusion in `Deriver`.

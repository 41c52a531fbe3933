# Governed memory of Ozymandias: a verified model

Ozymandias is a personal assistant with long-term memory. This project models the logic that governs that
memory, and the two text protocols around it, and proves what the code promises. Everything is stated for all
inputs, all runs or all reachable states; `dafny verify dfyconfig.toml` checks the whole project.

## Layout

| module | models |
|---|---|
| `Prelude`, `Text`, `Sorting` | list comprehensions, counting, `split`/`join`/`replace`/`strip`, stable sorting |
| `TurnStream` | the printer of the turn event stream and the incremental parser with its carry-over buffer |
| `TextNorm` | folding, stemming, tokenizing and synonym expansion |
| `Lanes`, `Conflicts` | the lane policy table, the trust order, resolution in single-valued lanes |
| `Retrieval`, `InjectionOrder` | scoring and budgeted assembly of facts, and what an injection holds in which order |
| `Recall`, `RecallOutcomes` | neutralising rule text, loading facts and rules, and which of them a query meets |
| `Rules`, `RuleService`, `RuleOutcomes`, `RuleRuns` | conflict detection, the life of behavioral rules with the conflict ledger, what each step leaves, and what its runs can reach |
| `Lifecycle`, `LaneDecay`, `DecayOutcomes` | the decay verdict of one fact, the nightly run over the table, and its effect lane by lane |
| `Rebound`, `FactStore`, `WriteOutcomes` | flood control after an idle gap, the lane-governed write path, and its answers and effects |
| `Claims`, `ClaimLog`, `ClaimOutcomes` | operations on stored claims, the append-only version log, and what each operation leaves |
| `TurnPipeline`, `TurnDecisions` | the gates of one turn, proposals, conflict groups and later decisions, and what becomes of each claim |
| `ProjectContext`, `KnowledgeSelection` | paragraph chunking, the selection of project knowledge, and what enters in which order |
| `Conversation`, `HistoryWindow` | message numbering and the history window |
| `EpisodeIndex`, `EpisodeOutcomes` | batched embedding and exactly-once indexing |
| `MemoryGraph`, `GraphOutcomes` | building the entity graph, exporting it and restoring it, row by row |

Services whose methods update rows are classes; each method is proved equal to a function from the old state to
the new one, and the theorems are about those functions and their runs. `InjectionOrder`,
`KnowledgeSelection`, `HistoryWindow`, `TurnDecisions` and the modules named `...Outcomes` say what each operation
answers and leaves behind in terms of the rows' own fields, without the definitions it is built from.
Where a class has a `Valid()`, each operation keeps it, except that a proposal made directly can break group
ownership: `CreateProposal` says exactly when. One service call is one atomic step.
What the code cannot see is a parameter with a small contract: JSON (`Codec`, `Lossless`), the digest of a
version, the curve `0.5 ** x` (`HalvingCurve`), the embedding model, and the gates of the Rust engine.

## What the code does that its documentation does not say

Each entry names the exact condition and a run or input that shows the case.

- A nightly decay run multiplies the already reduced confidence by the decay of the whole age again, so runs
  compound: after any runs the confidence is the initial one times the product of the decays of all ages, up to
  half a grid step per run (`LaneDecay.RunsCompound`). A second run at the same instant changes nothing exactly when
  `LaneDecay.SecondRunStableIff` says so; `Lifecycle.RepeatedRunsCompound` is an input where it retracts the fact.
- A confirmation of the held value from a better source is dropped as a no-op. The best source is kept exactly when
  that never happens (`Conflicts.BestFactHeldIff`), and the best value exactly when no other value later beats the
  held source while a better one has been seen (`Conflicts.BestValueHeldIff`); `Conflicts.ConfirmationCanBeLost` is a
  history in which both are lost. Through `write_fact` this cannot happen, because only observations reach those
  lanes (`Lanes.SingleValuedAdmitsObservationsOnly`).
- A write without an attribute looks at all attributes of its subject. With one active value it displaces that
  value's key (`FactStore.NamelessWriteDisplaces`, shown by `FactStore.NameCanBeLost`), with two or more the query
  raises (`FactStore.RaisesIff`, shown by `FactStore.WriteCanRaise`). `FactStore.RefinesPutIff` says exactly when a
  write behaves as a write to a map.
- Confirming accepts a superseded claim and can give a single-valued lane a second active value
  (`FactStore.ConfirmKeepsOneActiveIff`, shown by `FactStore.ConfirmCanDuplicate`).
- A full domain or a full rule table is recorded as a hard conflict, and a recorded hard conflict blocks its rule for
  good. A pending rule can still become active exactly when it has no hard record (`RuleRuns.MayBecomeActiveIff`), and
  a proposal is blocked from the start exactly when it contradicts an active rule or meets a full domain or table
  (`RuleRuns.BlockedFromTheStartIff`); `RuleRuns.FullDomainBlocks` is a run in which room is made and the approval
  still fails. What one approval needs is `RuleService.ApproveIff`.
- A proposal made directly may name an existing conflict group, which then has two proposals. Every group belongs to
  one proposal after a run exactly when no such proposal was made (`TurnPipeline.RunKeepsGroups`, shown by
  `TurnPipeline.GroupCanBeShared`).
- Rules with opposite effects can be injected together: for a query, some history leads there exactly when two
  keywords that share no term both meet the query (`Recall.OppositeRulesIff`, shown by `Recall.GermanRulesCanOppose`).
- Restoring a snapshot is additive for entities, but fails exactly when one of its relations is stored already or
  occurs twice (`MemoryGraph.RestoreFailsIff`); over the graph it was taken from, whenever it holds a relation between
  the user's own entities (`MemoryGraph.RestoreInPlaceIff`, shown by `MemoryGraph.RestoreInPlaceCanFail`).
- Unlocking always switches decay on, so it undoes locking exactly for a claim that was decay-eligible
  (`ClaimLog.UnlockUndoesLock`, shown by `ClaimLog.ArchivedClaimDecaysAgain`).

## Model

| member | source | states |
|---|---|---|
| TurnStream.ParseSseBlock | frontend/src/api/turns.ts:64-86 | the loop over the lines of a block and the final decoding compute `ParseBlock`; malformed blocks give nothing |
| TurnStream.ScanCollects | frontend/src/api/turns.ts:67-73 | for any lines: all data lines are kept in order, the last event line decides the name, other lines are ignored |
| TurnStream.BlockParsedIff | frontend/src/api/turns.ts:64-86 | a block yields an event exactly when its last event line names one of the three events, it has a data line, and its data lines joined by newlines decode; every other block is dropped |
| TurnStream.DrainBuffer | frontend/src/api/turns.ts:129-138 | after the inner loop the buffer holds no blank line, and what was yielded are the events of every closed block |
| TurnStream.StreamTurn | frontend/src/api/turns.ts:88-144 | however the text is cut into chunks, the events and the rest are those of the whole text; of a printed stream they are exactly the events sent, with an empty buffer |
| TurnStream.EventsExtend | frontend/src/api/turns.ts:126-138 | events yielded early are final: events of seen-and-more are events of seen, then events of carry-over-and-more |
| TurnStream.RoundTrip | backend/app/api/turns.py:120-126 | the parser undoes the printer for every list of events |
| TurnStream.BodyIsOneBlock | backend/app/api/turns.py:124-125 | a printed frame contains no blank line, not even across its end, so its separator is found where it was printed |
| TextNorm.ComputeStem | backend/app/memory/text_norm.py:82-89 | the loop with early return computes `Stem` |
| TextNorm.StemStripsFirst | backend/app/memory/text_norm.py:82-89 | at most one suffix is removed: the first in the list that applies; no other change |
| TextNorm.StemBy | backend/app/memory/text_norm.py:82-89 | the root is a prefix, and a token of three characters or more keeps at least three |
| TextNorm.ComputeQueryTerms | backend/app/memory/text_norm.py:106-111 | the accumulating loop computes the union of the tokens' expansions |
| TextNorm.QueryTermsUnion | backend/app/memory/text_norm.py:92-111 | terms of two texts joined by any non-word character are the union of their terms |
| TextNorm.QueryTermsByWords | backend/app/memory/text_norm.py:92-111 | the terms of a text depend only on which words occur in it |
| TextNorm.QueryTermsIff | backend/app/memory/text_norm.py:92-111 | the terms of a text are exactly the stems of its folded words that are no stopwords and of what shares a synonym group with one of these |
| TextNorm.FoldTransliterates | backend/app/memory/text_norm.py:67-79 | wherever it stands, an umlaut or sharp s of either case folds like its two letters |
| TextNorm.FoldLowers | backend/app/memory/text_norm.py:77-79 | wherever it stands, a capital folds to its small letter, and any other character stays |
| TextNorm.FoldIdempotent | backend/app/memory/text_norm.py:77-79 | folding twice is folding once |
| TextNorm.WordCharIff | backend/app/memory/text_norm.py:14 | words are made of exactly the characters that fold to the letters a to z and to digits |
| Conflicts.TrustNeverDrops | backend/app/memory/conflicts.py:34-74 | over any history of facts the trust of the held fact never falls |
| Conflicts.BestValueHeldIff | backend/app/memory/conflicts.py:34-74 | the held value is that of the last fact of maximal trust after every write of a history, if and only if no write with another value beats the held source while a better source has been seen |
| Conflicts.BestFactHeldIff | backend/app/memory/conflicts.py:47-64 | the held value together with its source, and likewise the source alone, is the best after every write if and only if no write confirms the held value from a better source |
| Conflicts.HeldIsLastMostTrusted | backend/app/memory/conflicts.py:43-64 | in particular when equal values carry equal sources, the held fact has the value and source of the last fact of maximal trust |
| Conflicts.LastMostTrusted | backend/app/memory/lanes.py:43-49 | reference definition: no fact is more trusted, and every later one is less trusted |
| Conflicts.ConfirmationCanBeLost | backend/app/memory/conflicts.py:47-53 | a concrete history in which the confirmed value is displaced by a less trusted one |
| Conflicts.ResolutionIff | backend/app/memory/conflicts.py:34-74 | a fact is written unless one is held in a single-valued lane that has the same value or is more trusted; writing over a held fact supersedes it; only different values are in conflict |
| Lanes.TrustOrder | backend/app/memory/lanes.py:43-49 | observation, conversation, inference, tool, external, from most to least trusted, in a strict total order |
| Retrieval.RelevantIffSharedTerm | backend/app/memory/retrieval.py:36-47 | the default threshold is met exactly by the facts that share a term with the query |
| Retrieval.Assemble | backend/app/memory/retrieval.py:81-115 | assembly computes `AssembleBy` for the query's scores |
| Retrieval.TakeIdentity | backend/app/memory/retrieval.py:92-99 | the identity loop with its break computes the fitting prefix |
| Retrieval.TakeRelevant | backend/app/memory/retrieval.py:106-114 | the loop over per-lane budgets computes the greedy selection |
| Retrieval.OrderIndependent | backend/app/memory/retrieval.py:50-57 | with distinct ids the result does not depend on the order candidates come in |
| Retrieval.LanesDoNotInterfere | backend/app/memory/retrieval.py:101-114 | one lane's picks equal those of a run on that lane alone |
| Retrieval.GreedyOneLane | backend/app/memory/retrieval.py:106-114 | the greedy loop restricted to one lane is the greedy loop of that lane |
| Retrieval.LaneWithinBudget | backend/app/memory/retrieval.py:106-114 | every lane stays within its character budget |
| Retrieval.PickedIffRoom | backend/app/memory/retrieval.py:107-114 | a candidate is passed over exactly when better-ranked picks of its lane leave no room, and with distinct ids it is then absent from the result |
| Retrieval.IdentityIsLongestPrefix | backend/app/memory/retrieval.py:90-99 | identity is the longest prefix, most confident first, that fits |
| Retrieval.NothingElseAppears | backend/app/memory/retrieval.py:90-105 | only given candidates appear, identity only in its own section, authorization never, scores at or above the threshold |
| InjectionOrder.RelevantInOrder | backend/app/memory/retrieval.py:50-57 | among the relevant facts of an injection the score falls, or ties and the confidence falls, or both tie and the id grows |
| InjectionOrder.InjectedIffFits | backend/app/memory/retrieval.py:101-114 | a fact outside identity and authorization that reaches the threshold is in the injection if and only if it fits its lane's budget beside the injected facts of its lane with a higher score, or the same score and a higher confidence, or both equal and a smaller id |
| InjectionOrder.IdentityInOrder | backend/app/memory/retrieval.py:90-99 | in the identity section the confidence falls, or ties and the id grows |
| InjectionOrder.IdentityInjectedIffFits | backend/app/memory/retrieval.py:90-99 | an identity fact is injected if and only if all identity facts before it in that order fit the budget together with it |
| InjectionOrder.InjectedOnce | backend/app/memory/retrieval.py:81-115 | with distinct ids no fact is injected twice |
| InjectionOrder.ScoreIsLexicographic | backend/app/memory/retrieval.py:36-47 | of two relevant facts the one sharing more query terms in its content scores higher; on a tie, the one with a query term in its subject; on a further tie, the more confident one |
| Rules.ComputeTriggerTerms | backend/app/memory/rules.py:46-51 | the loop computes the union of the keywords' terms |
| Rules.ComputeConflicts | backend/app/memory/rules.py:80-155 | the detection loop and the cap checks compute `DetectConflicts` |
| Rules.HardConflictIff | backend/app/memory/rules.py:94-160 | hard conflicts are exactly contradiction of an active rule, a full domain or a full table |
| Rules.SeverityByKind | backend/app/memory/rules.py:97-154 | direct and cap conflicts are hard, interaction and budget conflicts soft |
| Rules.TriggerTermsUngrouped | backend/app/memory/rules.py:46-51 | grouping of keywords does not matter: the terms are those of the keywords written as one text |
| Rules.TriggerTermsRegrouped | backend/app/memory/rules.py:46-51 | order, repetition and grouping of keywords do not matter: triggers made of the same words have the same terms |
| Rules.TriggerMonotone | backend/app/memory/rules.py:59-64 | separated text added before or after a query never switches a trigger off |
| RuleService.BehavioralRuleService.DetectAndStoreConflicts | backend/app/services/behavioral_rule_service.py:259-302 | the loop appends exactly the detected conflicts the ledger lacks and returns old and new ones |
| RuleService.BehavioralRuleService.ProposeRule | backend/app/services/behavioral_rule_service.py:55-103 | proposing, with its two errors, is the step `Propose` |
| RuleService.BehavioralRuleService.ApproveRule | backend/app/services/behavioral_rule_service.py:105-171 | approving, with its four errors, is the step `Approve` |
| RuleService.BehavioralRuleService.RejectRule | backend/app/services/behavioral_rule_service.py:173-201 | succeeds exactly for a pending rule; then that rule is rejected with its decision, and its spec, every other rule and the ledger are unchanged; otherwise nothing changes |
| RuleService.BehavioralRuleService.RetireRule | backend/app/services/behavioral_rule_service.py:203-257 | succeeds exactly for an active or pending rule; then that rule is retired with its decision, and its spec, every other rule and the ledger are unchanged; otherwise nothing changes |
| RuleService.BehavioralRuleService.CleanUpExpired | backend/app/services/memory_lifecycle_service.py:97-110 | the bulk update is the step `CleanUp`, and the count is the number of rules that stopped being active |
| RuleService.ApproveIff | backend/app/services/behavioral_rule_service.py:105-144 | approval succeeds exactly for a pending rule with no hard record, no contradiction with an active rule, room in its domain and in the table, and, without the override, no soft record, no active rule with an overlapping trigger, and artifacts within the domain's budget |
| RuleService.HardIsReported | backend/app/services/behavioral_rule_service.py:281-302 | a hard conflict is handed back exactly when one is detected now or is on record |
| RuleService.DetectedHardIff | backend/app/services/behavioral_rule_service.py:262-279 | detection over the stored rules finds a hard conflict exactly for a contradiction with an active rule or a used-up cap |
| RuleService.DetectedSoftIff | backend/app/memory/rules.py:107-154 | detection over the stored rules finds a soft conflict exactly for an active rule that overlaps without contradicting, or an exceeded artifact budget |
| RuleService.SoftIsReported | backend/app/services/behavioral_rule_service.py:281-302 | a soft conflict is handed back exactly when one is detected now or is on record |
| RuleService.RedetectionAddsNothing | backend/app/services/behavioral_rule_service.py:281-302 | asking again at any later state with the same rule and the same active rules adds no record |
| RuleService.StepKeepsInv | backend/app/services/behavioral_rule_service.py:55-257 | every step keeps: no clash among active rules, caps, numbering, and no active rule with a hard record |
| RuleService.RunKeepsInv | backend/app/services/behavioral_rule_service.py:55-302 | so does every run of proposals, approvals, rejections, retirements and cleanups |
| RuleService.ActiveRulesAreSafe | backend/app/services/behavioral_rule_service.py:105-155 | in every reachable state no two active rules contradict, at most 5 are active per domain and at most 20 in all |
| RuleService.LedgerGrows | backend/app/services/behavioral_rule_service.py:281-302 | the ledger is only ever extended |
| RuleService.HardConflictBlocksForever | backend/app/services/behavioral_rule_service.py:114-135 | once a hard conflict is on record for a rule, that rule is active in no later state |
| RuleOutcomes.ClashIff | backend/app/memory/rules.py:54-78 | two rules clash exactly when some keyword of one and some of the other have a term in common and their actions have the same stem and opposite polarity |
| RuleOutcomes.DetectedIff | backend/app/memory/rules.py:80-155 | for a rule that is not active, detection reports exactly each active rule that shares a trigger term, hard when the effects are opposed and soft otherwise, a domain of five, a table of twenty, and more than ten artifacts |
| RuleOutcomes.LedgerAfterDetection | backend/app/services/behavioral_rule_service.py:281-302 | detection adds behind the ledger exactly the detected conflicts of this rule that the ledger lacks by kind, other rule and message, and hands back all records of the rule |
| RuleOutcomes.ProposedAsDrafted | backend/app/services/behavioral_rule_service.py:55-103 | only the user proposes and not an empty text; the new rule has the draft's stripped text, domain, keywords, effect and artifact cost, pending, behind the others, which stay; what detection finds for it is recorded and handed back |
| RuleOutcomes.ApprovalOutcome | backend/app/services/behavioral_rule_service.py:105-171 | in every reachable state: which answer an approval gives and when; what detection finds is recorded whatever the answer; a success activates that rule for thirty days and changes nothing else about it or the others; a failure leaves all rules |
| RuleOutcomes.RejectionOutcome | backend/app/services/behavioral_rule_service.py:173-201 | exactly a pending rule is rejected, with who, when and why; nothing else about it, the other rules or the ledger changes |
| RuleOutcomes.RetirementOutcome | backend/app/services/behavioral_rule_service.py:203-257 | exactly an active or pending rule is retired, keeping its old reason when none is given; nothing else changes |
| RuleRuns.MayBecomeActiveIff | backend/app/services/behavioral_rule_service.py:105-155 | some later run makes a pending rule active if and only if no hard conflict is on record for it |
| RuleRuns.BlockedFromTheStartIff | backend/app/services/behavioral_rule_service.py:66-103 | no run ever makes a proposed rule active if and only if, when proposed, it contradicted an active rule or its domain or the table was full |
| RuleRuns.FullDomainBlocks | backend/app/memory/rules.py:126-136 | a run to a full domain in which one rule is then retired and the blocked approval still fails, now and later |
| RuleService.CleanUpReGates | backend/app/services/memory_lifecycle_service.py:97-110 | after a cleanup every active rule was approved less than thirty days ago |
| RuleOutcomes.CleanUpOutcome | backend/app/services/memory_lifecycle_service.py:97-110 | in every reachable state a rule is active after a cleanup if and only if it was and was activated less than thirty days ago; then, and if it was not active, it is unchanged; otherwise only its status becomes pending and its activation time is dropped; the ledger stays |
| Lifecycle.RoundHalfEven | backend/app/memory/lifecycle.py:46-56 | rounding moves a value by at most half a unit |
| Lifecycle.SurvivorWithinPolicy | backend/app/memory/lifecycle.py:24-57 | a surviving fact is within its lane's lifetime and, with a half-life, at or above the floor even after rounding |
| Lifecycle.ReductionBounded | backend/app/memory/lifecycle.py:54-56 | a reduced confidence is on the 1e-4 grid, never above one already on the grid, and at most half a step above any other |
| Lifecycle.VerdictMultiplies | backend/app/memory/lifecycle.py:45-57 | a survivor's confidence is the decayed one up to half a grid step |
| Lifecycle.RepeatedRunsCompound | backend/app/memory/lifecycle.py:45-56 | an input that survives one run and is retracted by the next at the same age |
| LaneDecay.MemoryLifecycleService.RunLaneDecay | backend/app/services/memory_lifecycle_service.py:43-85 | the loop gives every selected row its verdict, leaves the others alone, and counts the actions |
| LaneDecay.EveryClaimTallied | backend/app/services/memory_lifecycle_service.py:57-66 | keep, reduce and expire add up to the selected claims |
| LaneDecay.SurvivorsWithinPolicy | backend/app/services/memory_lifecycle_service.py:43-71 | after a run every eligible unlocked active claim is within its lane's lifetime and at or above its floor |
| LaneDecay.ExemptUnchanged | backend/app/services/memory_lifecycle_service.py:47-53 | identity, locked, ineligible and inactive claims are never touched by any number of runs |
| LaneDecay.SecondRunStableIff | backend/app/services/memory_lifecycle_service.py:57-71 | a second run at the same instant changes nothing exactly when the first did not reduce the claim, or its reduced confidence decayed once more stays at or above the floor and rounds to itself |
| LaneDecay.RunsCompound | backend/app/services/memory_lifecycle_service.py:57-71 | over any runs at any times, while the claim stays active, its confidence is the initial one times the product of the decays of all its ages, up to half a grid step per run |
| LaneDecay.ConfidenceNeverRises | backend/app/services/memory_lifecycle_service.py:67-68 | over any runs at any times a confidence on the grid never rises and any other gains at most half a grid step |
| LaneDecay.ExpiryIsFinal | backend/app/services/memory_lifecycle_service.py:47-53 | a claim that is no longer active is left as it is by every later run |
| DecayOutcomes.Fate | backend/app/memory/lifecycle.py:24-57 | lane by lane: one run retracts an eligible, unlocked, active claim exactly when it is past its lane's days or, halved by age, below the lane's floor; otherwise reduces it to the halved confidence at four decimals exactly when that is smaller; and changes nothing else |
| DecayOutcomes.RunOutcome | backend/app/services/memory_lifecycle_service.py:43-71 | a run treats each row on its own and counts the rows it retracted, reduced and left alone |
| FactStore.MemoryWriteService.WriteFactFor | backend/app/services/memory_write_service.py:64-187 | the whole write path, with its rejections, its no-op and its raising query, is the step `WriteFact` |
| FactStore.RaisesIff | backend/app/services/memory_write_service.py:139-155 | the lookup raises exactly for an admitted single-valued write without attribute whose subject has two or more active claims |
| FactStore.NamedFindsOne | backend/app/services/memory_write_service.py:139-155 | a write that names an attribute finds at most one row |
| FactStore.WriteCanRaise | backend/app/services/memory_write_service.py:139-155 | a run after which a write raises |
| FactStore.StepKeepsInv | backend/app/services/memory_write_service.py:64-137 | writes, claim operations other than confirming, and decay keep at most one active claim per key |
| FactStore.RunKeepsInv | backend/app/services/memory_write_service.py:64-137 | so does every run of them |
| FactStore.SingleValuedLanesStaySingle | backend/app/services/memory_write_service.py:118-131 | in every reachable state a single-valued lane has at most one active claim per subject and attribute |
| FactStore.ConfirmKeepsOneActiveIff | backend/app/services/claim_service.py:176-190 | confirming keeps that exactly when the claim was not superseded or its key is free |
| FactStore.ConfirmCanDuplicate | backend/app/services/claim_service.py:185-190 | a run after which confirming gives a lane two active values |
| FactStore.WriteRefinesPut | backend/app/services/memory_write_service.py:64-137 | a write that names an attribute, finds nothing, or finds one row without attribute acts on the table as `Put` acts on a map from key to value |
| FactStore.RefinesPutIff | backend/app/services/memory_write_service.py:64-155 | a write answers and acts as `Put` exactly when it is refused, its lane is multi-valued, it names an attribute, or it finds no row or one row without attribute; or when even the put would leave no trace |
| FactStore.CommitRefines | backend/app/services/memory_write_service.py:98-131 | such a write, when admitted, never raises, and stores its value at its key unless the same value is there |
| FactStore.WritesRefineMap | backend/app/services/memory_write_service.py:64-137 | over every run of writes that name an attribute the table with its history of superseded rows behaves as the simple map |
| FactStore.NamelessWriteDisplaces | backend/app/services/memory_write_service.py:139-155 | a write without attribute displaces the subject's only active value, whatever its attribute |
| FactStore.NameCanBeLost | backend/app/services/memory_write_service.py:125-131 | a run in which a write without attribute empties another key |
| FactStore.ReboundHolds | backend/app/services/memory_write_service.py:157-187 | once a read finds rebound active every later read does, and the non-identity writes recorded number at most five minus those already counted |
| FactStore.ReboundRefusesIff | backend/app/services/memory_write_service.py:84-96 | a write is refused by rebound exactly when policy admits it, it is not identity, the session reads as active and five writes are used up; then nothing changes |
| WriteOutcomes.WhichAnswer | backend/app/services/memory_write_service.py:64-155 | every answer of a write and exactly when it is given, with reason, conflict and rebound flag: who may write to which lane at which confidence, the cap of five writes in rebound, the raising query, the no-op for an equal value, superseding for a different one, and plain writing |
| WriteOutcomes.WhatIsLeft | backend/app/services/memory_write_service.py:118-187 | in every lane an answer written or superseded adds exactly the given fact as one row under the named id, supersedes the one rival or nothing, and records the session; every other answer, and a raising query, leaves table and sessions unchanged |
| ClaimLog.Newest | backend/app/services/claim_service.py:372-379 | the row selected has the highest version number |
| ClaimLog.ClaimService.RecordVersion | backend/app/services/claim_service.py:365-397 | appends the next version of the claim: number, digest, link, snapshot |
| ClaimLog.ClaimService.PersistClaim | backend/app/services/claim_service.py:315-363 | stores the claim and its first version |
| ClaimLog.ClaimService.ChangeClaim | backend/app/services/claim_service.py:103-313 | each operation, with its errors, changes one claim and appends one version, or changes nothing |
| ClaimLog.ChainExtends | backend/app/services/claim_service.py:365-397 | recording extends a gap-free, hash-linked history by one link |
| ClaimLog.HistoryIsFaithful | backend/app/services/claim_service.py:103-397 | after every run versions are numbered 1..n, linked to their predecessors' hashes, and the newest snapshot is the claim |
| ClaimLog.LogIsAppendOnly | backend/app/services/claim_service.py:365-397 | earlier versions are never altered or removed |
| ClaimLog.RetractedIsFinalState | backend/app/services/claim_service.py:103-313 | a retracted claim never becomes active again |
| ClaimLog.UnlockUndoesLock | backend/app/services/claim_service.py:210-274 | unlocking undoes locking if and only if the claim was decay-eligible; otherwise decay is on afterwards |
| ClaimLog.ArchivedClaimDecaysAgain | backend/app/services/claim_service.py:133-163 | a run in which an archived claim, locked and unlocked, takes part in decay again |
| ClaimOutcomes.ChangeOutcome | backend/app/services/claim_service.py:103-313 | in every reachable state each operation on a claim: when it is refused and how; otherwise which fields it sets and that nothing else changes, and the one version it adds: next number, link to the digest of the claim as it was, snapshot, reason and author |
| ClaimOutcomes.CreateOutcome | backend/app/services/claim_service.py:315-397 | creating a claim puts the given data behind the others under the next id, with a first version linked to nothing |
| ClaimOutcomes.RetractionLasts | backend/app/services/claim_service.py:103-131 | a retraction makes the claim retracted, with the instant, for every later run, and no confirmation of it succeeds |
| TurnPipeline.TurnService.HandleClaim | backend/app/services/turn_service.py:416-557 | the body of the claim loop, in the order its branches are taken, is `ProcessClaim` |
| TurnPipeline.TurnService.FinalizeTurn | backend/app/services/turn_service.py:415-567 | the loop over the allowed claims and the filtered rest is `Finalize` |
| TurnPipeline.TurnService.CreateProposal | backend/app/services/proposal_service.py:39-71 | adds one pending proposal, or refuses a group that does not exist; group ownership survives exactly when nothing is added or no group is named |
| TurnPipeline.TurnService.ApproveProposal | backend/app/services/proposal_service.py:73-113 | confirms a pending proposal and stores its claim, or fails without change |
| TurnPipeline.TurnService.RejectProposal | backend/app/services/proposal_service.py:115-148 | rejects a pending proposal, or fails without change |
| TurnPipeline.CreatedIffEveryGatePassed | backend/app/services/turn_service.py:415-557 | in every turn each allowed claim is stored without review exactly when it passed every gate at the database it met, as itself, tentatively when provenance locks it; what a result reports is in the database at the end of the turn |
| TurnPipeline.ReviewStoresSameClaim | backend/app/services/proposal_service.py:73-103 | after any further turns and decisions a proposal still holds its claim and its group of conflicting claims; while pending, approving it stores exactly the claim that would have been stored without review; once decided it cannot be decided again |
| TurnPipeline.Dedup | backend/app/services/turn_service.py:495-497 | the group's claim ids are those given, each once |
| TurnPipeline.ProcessAllConserves | backend/app/services/turn_service.py:415-557 | one result per allowed claim, one new claim per created result, one new proposal per proposed result, nothing else changes |
| TurnPipeline.TurnConserves | backend/app/services/turn_service.py:415-567 | results number allowed plus filtered claims |
| TurnPipeline.ProcessAllKeepsGroups | backend/app/services/turn_service.py:488-533 | every conflict group of a turn is referenced by exactly one proposal |
| TurnPipeline.StepConserves | backend/app/services/proposal_service.py:73-148 | claims minus confirmed proposals change only by the created results |
| TurnPipeline.RunConserves | backend/app/services/turn_service.py:415-567 | the same over every run of turns, direct proposals and decisions |
| TurnPipeline.RunStores | backend/app/services/turn_service.py:415-567 | the same balance of stored claims, gate-passing claims and confirmed proposals from any database |
| TurnPipeline.RunKeepsGroups | backend/app/api/proposals.py:34-45 | after any run of turns, direct proposals and decisions every conflict group belongs to exactly one proposal, if and only if no direct proposal named an existing group |
| TurnPipeline.GroupCanBeShared | backend/app/api/proposals.py:34-45 | a run in which a direct proposal shares the group of a turn's proposal |
| TurnPipeline.EveryClaimAccountedFor | backend/app/services/turn_service.py:415-567 | over every run the stored claims are, as a multiset, the claims that passed every gate at the database they met plus the claims of the confirmed proposals; they number the created results plus the confirmed proposals; each group belongs to one proposal exactly when no direct proposal named one |
| TurnPipeline.DecidedOnce | backend/app/services/proposal_service.py:81-124 | a decided proposal is never changed again |
| TurnDecisions.EveryVerdict | backend/app/services/turn_service.py:415-567 | for each claim of every turn, from the gates' answers alone: rejected by schema, rejected with which reason, put up for review, or stored, each if and only if; what each leaves in the database; and what follows the allowed claims |
| TurnDecisions.SubmittedForGood | backend/app/services/proposal_service.py:39-71 | a direct proposal is refused exactly for an unknown group; otherwise stored as given and undecided, keeping its claim and group over every later run |
| TurnDecisions.ApprovedForGood | backend/app/services/proposal_service.py:73-113 | exactly a pending proposal is approved: it is confirmed, with who and when, its claim is stored, nothing else changes, and so it stays |
| TurnDecisions.RejectedForGood | backend/app/services/proposal_service.py:115-148 | exactly a pending proposal is rejected: with who, when and why, no claim is stored, and over every later run it can be neither approved nor rejected |
| Recall.Sanitize | backend/app/services/memory_recall_service.py:183-191 | the loop over the markers computes `SanitizeWith` |
| Recall.SanitizedIsSafe | backend/app/services/memory_recall_service.py:183-191 | for every text the result holds none of the six markers, is whitespace-collapsed and has at most 241 characters |
| Recall.ReplaceAllRemoves | backend/app/services/memory_recall_service.py:186-187 | replacing the markers one after the other removes all of them and creates none |
| Recall.CollapseCreatesNothing | backend/app/services/memory_recall_service.py:188 | collapsing whitespace brings no marker into being |
| Recall.CleanTextUnchanged | backend/app/services/memory_recall_service.py:183-191 | collapsed text without markers is only truncated |
| Recall.SanitizeIdempotent | backend/app/services/memory_recall_service.py:183-191 | sanitizing twice is sanitizing once |
| RecallOutcomes.SanitizedFrom | backend/app/services/memory_recall_service.py:183-191 | for any text: whitespace collapsed, each marker in turn replaced by a blank, collapsed again and cut behind 240 characters with an ellipsis; every other word stays, in order |
| Recall.LoadTriggeredRules | backend/app/services/memory_recall_service.py:132-151 | renders, in row order, exactly the active, unexpired, triggered rules |
| Recall.InjectedRulesConsistent | backend/app/services/memory_recall_service.py:132-151 | in every reachable state no two injected rules have opposite effects on a shared trigger term, nor at all for a query with one term |
| Recall.OppositeRulesIff | backend/app/services/memory_recall_service.py:132-151 | some history leads to two rules with opposite effects injected for a query, if and only if two keywords that share no term both meet the query |
| Recall.GermanRulesCanOppose | backend/app/memory/rules.py:59-64 | such a history for the terms the service uses |
| Recall.LoadFactCandidates | backend/app/services/memory_recall_service.py:72-102 | offers exactly the active claims a provider may see |
| Recall.RecallExposesOnlyAllowed | backend/app/services/memory_recall_service.py:48-102 | every injected fact is an active claim outside authorization, and never S3 or S4 for a provider that is not local |
| Recall.RecallIgnoresRowOrder | backend/app/services/memory_recall_service.py:57-59 | the injection does not depend on the order rows come back in |
| RecallOutcomes.RulesInjected | backend/app/services/memory_recall_service.py:132-151 | the lines injected are, in row order, those of exactly the active, unexpired rules with a keyword that has a term of the query, sanitized, marked as new for three days |
| RecallOutcomes.FactsOffered | backend/app/services/memory_recall_service.py:72-102 | offered are exactly the claims neither superseded nor retracted and, for a provider that is not local, S0 to S2, in row order with their own fields |
| RecallOutcomes.ClaimRecalledIff | backend/app/services/memory_recall_service.py:48-102 | a claim outside identity is injected for a query if and only if it may be offered, is of an injectable lane, shares a term with the query, and fits its lane's budget beside the better injected ones |
| ProjectContext.ChunkText | backend/app/services/project_context_service.py:211-226 | the loop with its buffer computes `Chunks` |
| ProjectContext.ChunksJoin | backend/app/services/project_context_service.py:211-226 | the chunks joined by blank lines are the paragraphs joined by blank lines |
| ProjectContext.ParagraphsAre | backend/app/services/project_context_service.py:213 | a paragraph is non-empty, stripped and without a blank line inside |
| ProjectContext.ChunksLoseNothing | backend/app/services/project_context_service.py:211-226 | joining the chunks and splitting again gives exactly the paragraphs, in order |
| ProjectContext.ChunksHoldWholeText | backend/app/services/project_context_service.py:211-226 | apart from whitespace the chunks hold the whole text, in order |
| ProjectContext.RechunkIsIdentity | backend/app/services/project_context_service.py:211-226 | chunking the joined chunks gives the same chunks |
| ProjectContext.ChunksWellSized | backend/app/services/project_context_service.py:217-223 | a chunk is one paragraph or at most 700 paragraph characters, and was closed only because the next paragraph would overflow it |
| ProjectContext.SelectKnowledge | backend/app/services/project_context_service.py:95-144 | selection over the readable files computes `SelectBy` |
| ProjectContext.SelectionWithinBudget | backend/app/services/project_context_service.py:95-144 | at most 4000 characters are selected in either branch |
| ProjectContext.LeftOutIffNoRoom | backend/app/services/project_context_service.py:130-144 | excerpts are ranked best first, equally relevant ones in document order, and one is left out exactly when the better ones taken leave no room |
| KnowledgeSelection.SmallBasesEnterWhole | backend/app/services/project_context_service.py:95-117 | when the readable texts total at most 4000 characters, exactly one excerpt per readable file is selected, in order, with its name and stripped text |
| KnowledgeSelection.LargeBasesEnterByRelevance | backend/app/services/project_context_service.py:119-144 | otherwise the selection consists of chunks of readable files, each at most once, by falling score and then document order, and a chunk is left out exactly when it does not fit beside the selected ones before it |
| KnowledgeSelection.HigherScoreIff | backend/app/services/project_context_service.py:229-239 | a chunk scores above zero exactly when it shares a term with the query, and of two such the one with the larger quotient of shared terms and root of terms scores higher |
| Conversation.MaxSeq | backend/app/services/conversation_service.py:141-145 | the highest number in use, or 0 |
| Conversation.ConversationService.AppendMessage | backend/app/services/conversation_service.py:128-162 | adds one message with the next number of its conversation |
| Conversation.ConversationService.RecentHistory | backend/app/services/conversation_service.py:164-196 | the loop with its skip and its break computes `History` |
| Conversation.AppendsAreNumbered | backend/app/services/conversation_service.py:141-148 | over every run of appends each conversation is numbered 1..n |
| Conversation.NewestFirstIsReversedWindow | backend/app/services/conversation_service.py:177-184 | the ordered, limited query returns the last messages reversed |
| Conversation.HistoryIsLongestSuffix | backend/app/services/conversation_service.py:164-196 | the history is the longest suffix of the allowed window that fits, oldest first, with no S3 or S4 message for a provider that is not local |
| HistoryWindow.AppendsStoreAsGiven | backend/app/services/conversation_service.py:128-162 | after any appends each message is stored as given, in order, numbered one more than the messages its conversation had before it |
| HistoryWindow.HistoryHolds | backend/app/services/conversation_service.py:164-196 | a message is in the history if and only if it is of the conversation, may be sent to the provider, is among the last `limit`, and fits with all later ones that may be sent; in the order written |
| EpisodeIndex.EpisodeIndexService.Embed | backend/app/services/episode_index_service.py:126-137 | the batch loop computes `EmbedFrom`, giving up on the first unreachable batch |
| EpisodeIndex.EpisodeIndexService.IndexUserMessages | backend/app/services/episode_index_service.py:50-105 | one run is the step `IndexUser` |
| EpisodeIndex.EmbedCoversAll | backend/app/services/episode_index_service.py:126-137 | a successful embedding has exactly one vector per message, whatever the batches |
| EpisodeIndex.BatchingIsPointwise | backend/app/services/episode_index_service.py:126-137 | with a pointwise model batching by 16 equals embedding each message on its own |
| EpisodeIndex.EpisodesGetOwnVectors | backend/app/services/episode_index_service.py:63-81 | each new episode carries the vector of its own message, or none when the message is too short |
| EpisodeIndex.FailureChangesNothing | backend/app/services/episode_index_service.py:64-68 | a run changes nothing exactly when it has nothing to do or its embedding fails, and the next run takes the same messages |
| EpisodeIndex.CountsAddUp | backend/app/services/episode_index_service.py:64-105 | embedded and skipped make up the messages taken; a storing run embeds exactly the messages long enough |
| EpisodeIndex.TodoIsDistinct | backend/app/services/episode_index_service.py:107-124 | a run takes the user's own messages without an episode, each once |
| EpisodeIndex.AtMostOneEpisode | backend/app/services/episode_index_service.py:50-124 | over every interleaving of appends and runs each conversation position gets at most one episode |
| EpisodeIndex.SuccessShrinksBacklog | backend/app/services/episode_index_service.py:50-124 | a successful run shrinks the backlog by min(limit, backlog) |
| EpisodeOutcomes.OldestAreTaken | backend/app/services/episode_index_service.py:107-124 | a run takes messages of the user without an episode only, each once, oldest first; one is left only when the limit is used up by messages at least as old |
| EpisodeOutcomes.EmbedByBatches | backend/app/services/episode_index_service.py:126-137 | the model is asked for sixteen texts at a time; embedding succeeds exactly when every batch is answered with one vector per text, and is given up exactly when a batch goes unanswered after all before it were answered |
| EpisodeOutcomes.RunOutcome | backend/app/services/episode_index_service.py:50-105 | each message taken becomes one episode with its own fields, and with the vector of its stripped text, cut to 4000 characters, exactly when that has 25 or more; the counts say so |
| MemoryGraph.Lookup | backend/app/services/memory_graph_service.py:74-77 | finds the entity of that user and name if there is one |
| MemoryGraph.MemoryGraphService.UpsertEntity | backend/app/services/memory_graph_service.py:64-94 | updates the named entity's given fields in place or adds a row |
| MemoryGraph.MemoryGraphService.AddRelationRow | backend/app/services/memory_graph_service.py:103-127 | adds a row, or fails on a missing entity or a repeated triple without change |
| MemoryGraph.MemoryGraphService.RestoreEntityRows | backend/app/services/memory_provenance_service.py:120-148 | the entity loop finds or adds every item and records its id |
| MemoryGraph.MemoryGraphService.RestoreRelationRows | backend/app/services/memory_provenance_service.py:150-165 | the relation loop adds the relations whose two names were seen |
| MemoryGraph.MemoryGraphService.RestoreEntities | backend/app/services/memory_provenance_service.py:120-167 | the whole restore is `Restore`, reports how many rows it added, and changes nothing when the commit fails |
| MemoryGraph.AddRelationKeepsValid | backend/app/models/memory.py:83-97 | adding succeeds exactly for existing endpoints and a new triple, and keeps the constraints |
| MemoryGraph.BuiltGraphsAreValid | backend/app/models/memory.py:57-97 | every graph built by upserts, relations and restores satisfies the unique constraints, and its relations end in ids that were given out |
| MemoryGraph.RestoreIsAdditive | backend/app/services/memory_provenance_service.py:120-167 | a restore leaves every existing row, its id and other users' rows as they are |
| MemoryGraph.RestoreIntoEmpty | backend/app/services/memory_provenance_service.py:128-148 | for a user without rows every item is new and gets the next id |
| MemoryGraph.SnapshotRestoreSnapshot | backend/app/services/memory_provenance_service.py:102-167 | export, restore for a user without rows, export again: same entities, same named relations; identical exactly when all relations are named |
| MemoryGraph.RestoreInPlaceIff | backend/app/services/memory_provenance_service.py:150-166 | restoring over the exported graph fails exactly when the export has a named relation, and otherwise changes nothing |
| MemoryGraph.RestoreInPlaceCanFail | backend/app/services/memory_provenance_service.py:150-166 | two related entities: their graph cannot be restored over itself |
| MemoryGraph.RestoreFailsIff | backend/app/services/memory_provenance_service.py:120-167 | for any snapshot and graph the restore fails exactly when the snapshot holds a relation between two of its entities that is stored already between the user's entities of these names, or holds one twice |
| GraphOutcomes.UpsertOutcome | backend/app/services/memory_graph_service.py:64-94 | an upsert of a known name takes over the given fields and keeps the others, the id and the place; a new name gets a row of its own with the given fields; nothing else changes |
| GraphOutcomes.RelationOutcome | backend/app/services/memory_graph_service.py:103-127 | a relation needs both entities and must not repeat a stored one up to its confidence; then it is stored as given |
| GraphOutcomes.SnapshotOutcome | backend/app/services/memory_provenance_service.py:102-118 | an export holds exactly the user's entities and relations, in order, with all fields and the names of the user's entities |
| GraphOutcomes.RestoreOutcome | backend/app/services/memory_provenance_service.py:120-167 | for any graph and snapshot a restore adds an entity for exactly the names the user has none of, made from the first item of the name, and in order one relation for exactly the resolvable relations, between the user's entities of these names |

## Left out

- The Rust engine (write gates, sensitivity filter, taint, approval): parameters of `TurnPipeline`; its own decisions are not modelled.
- JSON, SHA-256, UTF-8 decoding and the embedding model: parameters with the contracts named above; chunks of the stream are decoded text.
- The embedding model answers as a function of the texts; a model that changes its answer between equal requests is not modelled.
- Case folding beyond ASCII and the German letters, including the four further letters that a case-insensitive `[a-z]` matches.
- Floating point: confidences and scores are exact reals; only the rounding to four decimals is modelled, half to even.
- The relevance of a knowledge chunk is compared by its square, which orders chunks alike, instead of by a square root.
- Conflict groups and proposals are one user's; a direct proposal that names another user's group is not modelled.
- Concurrent transactions and crashes between commits: each service call is one atomic step.
- Supersession through `previous_rule_id`: no caller sets it.
- Rule triggers and effects are a list of keywords, an optional action and a polarity; other JSON shapes, which the code treats as empty, are not distinguished.
- Conflict messages are the values they interpolate, so two conflicts are equal when their messages are.
- `write_fact`, proposals and the decay jobs change claims without the steps of `ClaimLog`: a newest-snapshot result that included them would be false for superseding and decay, which record no version.
- Confirming is not a step of `FactStore.RunKeepsInv`; `FactStore.ConfirmKeepsOneActiveIff` says exactly when it may be.
- Direct creation and proposal approval bypass `write_fact` and are not steps of the single-valued-lane invariant.
- Deletion of expired snippets, relations and entities in the nightly cleanup, and the expiry fields of graph rows.
- The claims, rules and graph of a snapshot other than entities and relations: they are exported but never restored.
- `updated_at` and audit records; fields of a claim, message or episode that no modelled decision reads.
- Unknown lane names, malformed ids and rows of other users, which the services map to a default or to "not found".
- Rows are kept in `seq` fields and replaced at an index; aliasing between two loaded objects of one row is not modelled.
- Rendering of prompt blocks, related edges, HTTP routes, connectors, voice, scheduling and the user interface.

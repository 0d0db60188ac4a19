# A verified model of the MURA extraction pipeline and its interface algorithms

MURA turns recorded family stories into reviewable claims. This project models the deterministic parts of that
pipeline, and a few algorithms beside it, in Dafny, and proves what they promise.

* **Evidence and claims** (`DerivationGraph`, `DerivationSearch`, `DerivationOrders`, `Evidence`,
  `EvidenceDerivations`, `ClaimContract`, `Conflicts`, `ClaimMaterialization`, `RebuiltClaims`, `ClaimLoop`,
  `ContractAssembly`, `BuildFailures`). A model proposes evidence spans, coreference links, claims and conflicts; the
  builder filters cyclic and dangling derivations, rebuilds every claim over a growing ledger, and closes all
  references. A checker, written separately in the source, validates the result. The main theorem is
  `ContractAssembly.Materialize`: every claim is rebuilt as `RebuiltClaims` says field by field, every object that is
  built passes its own check, whatever is dropped is named in an issue, and the checker accepts the whole if and only if
  a condition on the proposed citations holds.
  `BuildFailures.FailsExactly` says exactly when the builder raises.
* **AI budget** (`BudgetLedger`, `CostGuards`, `AiCost`). Reservations move from reserved to committed, released or
  expired against a daily budget. Safety is proved over whole runs, and the price function is shown to discharge the
  hypothesis that a commit stays within its hold.
* **Bounded coreference** (`QuoteScopes`, `TextUnits`, `CoreferenceContexts`, `CoreferenceAugmentation`,
  `CoreferenceContract`). Text is cut into units, quotations are tracked with a stack, antecedents are sought in a
  window of two units, and links with evidence are added to the extraction; the builder of the contract accepts them.
* **Dates** (`IsoDates`, `TemporalExpressions`, `TemporalConflicts`, `Clauses`). Date wording is normalised into ISO
  values and bounds; disagreeing births and deaths become conflicts; text is split into clauses.
* **Speech** (`SpeechChunks`, `TranscriptMerge`, `SpeechSegments`, `SpeechLayout`, `WordTiming`). Speech regions are
  grouped into chunks, chunk transcripts are merged without losing words, and scripts are timed against speech.
* **Canvas** (`PointerGesture`, `PanZoom`). The gesture machine and the pan and zoom transform it drives.
* **Media containers** (`VariableSizeIntegers`, `OggPages`). EBML variable-size integers and the last Ogg page.

`Common`, `Ordering`, `Characters` and `StableSort` hold what several of these need.

Where the source loops or changes an object, the model does too: methods and classes are proved against
specification functions, and the laws are proved about those functions. What the functions mean is stated once more in
terms of fields, positions and sums, without naming them.

## Hypotheses

* Budget: a reservation reads its three sums as one atomic snapshot, as if under the advisory lock; the clock does not
  run backwards. A *proper* step reserves and records non-negative amounts and commits only an open hold for at most
  the reserved amount, a guard the source lacks.
* Derivations: the nested visit does not reach the recursion limit of Python, which a chain of about a thousand
  citations does.
* Claims: recording, speaker, transcription model and revision, claims and segments have names that are not empty;
  claims that may fall back on whole segments name at least one transcript segment and only known people;
  the evidence ids generated for them collide neither with proposed ids nor with each other; transcript and extraction
  are of the same recording.
* Coreference: clause switches lie inside their stretch and anaphors are not empty; units are what
  `TextUnits.OrderedUnits` promises. That added spans and links pass the checks of the contract also needs the segments
  to be those of the transcript, every name found to be that of a known person, and anaphors to be slices of the text.
  Which relationships a link supports is said for kinship words that have the two roles of their relation, as all
  entries of the word tables do.
* Timing and gestures use exact reals; `hypot` is any function that is never negative, and a norm where a lemma says so.
* Conflict names and link names are functions of what they digest; injectivity is assumed only where a lemma says so.

## What the proofs found

* The derivation filter is a single pass, so a kept span may still cite a dropped one, and the checker then rejects the
  built contract (`EvidenceDerivations.KeptSpanMayDangle`, `ContractAssembly.BuildRejected`; exactly when:
  `EvidenceDerivations.SurvivorsClosed`, `ContractAssembly.Materialize`). When citations form cycles, the order of the
  spans decides (`EvidenceDerivations.OrderDecides`), except for simple cycles
  (`DerivationOrders.SimpleCyclesAreDropped`).
* The builder raises on an empty claim id, speaker name or recording id that the models let through
  (`BuildFailures.FailsExactly`).
* A link that the augmentation resolves through an alias is refused by the contract, which looks for primary names
  only (`CoreferenceContract.AdditionVerdict`, `AddedLinksPass`).
* A commit without a status check can take the total over the budget (`CostGuards.LateCommitBreaksBudget`,
  `CommitEffect`, `CommitWithinBudget`).
* The reported consumption exceeds the budget although the table does not: usage recorded before its hold is settled
  counts twice (`CostGuards.UnsettledUsageCountsTwice`). It never does exactly when each record fits beside the open
  holds at the moment it is made (`ConsumptionStaysExactly`).
* The key of a released or expired reservation can never be used again (`CostGuards.KeyIsSpent`).
* A low opening quotation mark never closes, because its closing mark always opens (`QuoteScopes.NeverOutsideAgain`).
* A speech range that starts the recording and nearly fills the final limit loses leading speech to padding
  (`SpeechChunks.PaddedKeepsRange`, `LeadingSpeechLost`); default settings never reach that case (`PlanChunks`).
* Timing a script without sentences fails (`WordTiming.Align`).
* Pressing a pinching pointer again with a third one down leaves a stale pinch distance
  (`PointerGesture.RepeatedPressIsStale`).
* Approximate wording before a full date is dropped (`TemporalExpressions.AboutADayBecomesExact`), and bounds of an
  approximate month in year 0 are not real days (`MonthBoundsAreItsDays`).
* An older conflict with the name of a group hides a disagreement of dates unless an older one cites both events
  (`TemporalConflicts.DisagreementCitedExactly`, `ForeignConflictHides`), and a repeated event id makes the conflict
  builder raise (`AddTemporalConflicts`).
* The search for the last Ogg page does not end on a buffer of five bytes or more that starts with a page and has no
  valid one, for example a stream whose only page has granule position 0 (`OggPages.HaltsExactly`, `ShortestEndless`),
  and a page can be hidden by a marker four bytes later (`AdjacentMarkerHidesPage`, `HiddenPageEndless`).

## Model

| member | source | states |
|---|---|---|
| EvidenceDerivations.FilterEvidenceDerivations | Mura_project/src/mura/claim_model.py:638-699 | on every ledger the filter returns; it keeps exactly the survivors of the search in dictionary order; what it keeps has no derivation cycle (self-links included); a span is dropped only because it cites an unknown id or lies on a real cycle; the issues are exactly those of the ledger, none exactly when it is closed and acyclic; the kept spans are unchanged |
| EvidenceDerivations.DerivationScan.Visit | Mura_project/src/mura/claim_model.py:661-686 | the depth-first visit ends, leaves the stack as it found it, never un-marks anything, and settles the span: invalid, or finished after everything valid it cites |
| EvidenceDerivations.DerivationScan.VisitParents | Mura_project/src/mura/claim_model.py:677-683 | the loop over the parents of a first visit keeps the search invariant and settles every known parent |
| EvidenceDerivations.DerivationScan.MarkCycle | Mura_project/src/mura/claim_model.py:667-673 | meeting the stack marks the tail from the first visit on; only members of a real cycle are added to the invalid set |
| EvidenceDerivations.DerivationScan.StackTailIsCyclic | Mura_project/src/mura/claim_model.py:667-673 | every span from the first occurrence up to the top of the stack lies on a cycle of the graph |
| EvidenceDerivations.DerivationScan.Enter | Mura_project/src/mura/claim_model.py:675-676 | pushing a span keeps the stack a duplicate-free path of citations |
| EvidenceDerivations.DerivationScan.Leave | Mura_project/src/mura/claim_model.py:684-685 | finishing a span keeps finished valid spans ordered after the valid spans they cite |
| EvidenceDerivations.ReportDangling | Mura_project/src/mura/claim_model.py:644-659 | the first loop marks exactly the spans with an unknown citation and reports each once with its unknown ids |
| EvidenceDerivations.Search | Mura_project/src/mura/claim_model.py:687-690 | after all visits every span is invalid or finished, and the invalid set holds only dangling spans and cycle members |
| EvidenceDerivations.SearchSettlesEverything | Mura_project/src/mura/claim_model.py:661-690 | the order of finishing ranks the survivors, so no cycle can hide behind the early returns for invalid and finished spans |
| EvidenceDerivations.EveryCycleLosesAMember | Mura_project/src/mura/claim_model.py:638-699 | at least one member of every derivation cycle is dropped |
| EvidenceDerivations.AllKept | Mura_project/src/mura/claim_model.py:644-695 | nothing is dropped exactly when the graph is closed and acyclic |
| EvidenceDerivations.KeptSpanMayDangle | Mura_project/src/mura/claim_model.py:691-699 | the filter makes one pass: on a concrete ledger every run keeps a span that cites a dropped one |
| EvidenceDerivations.SurvivorsClosed | Mura_project/src/mura/claim_model.py:691-699 | for every ledger: the kept spans are closed exactly when no member of a derivation cycle is kept and every span that cites a dangling span or a cycle member is one itself |
| EvidenceDerivations.AcyclicSurvivorsClosed | Mura_project/src/mura/claim_model.py:691-699 | without derivation cycles the order of the dictionary plays no part: exactly the dangling spans are dropped, and the rest is closed exactly when whatever cites them dangles too |
| EvidenceDerivations.OrderDecides | Mura_project/src/mura/claim_model.py:687-699 | with cycles it does: the same citations keep a dangling span in one order of the dictionary and are all dropped in another |
| EvidenceDerivations.DroppedBackwards | Mura_project/src/mura/claim_model.py:691-699 | in a closed rest a path into a dropped span is dropped from its start, which is why one kept cycle member breaks closure |
| DerivationSearch.FirstOrderKeepsC | Mura_project/src/mura/claim_model.py:661-690 | the search over two joined cycles in one order, step by step: one member is finished before its cycle is found, and survives |
| DerivationSearch.OtherOrderDropsAll | Mura_project/src/mura/claim_model.py:661-690 | in the other order it marks all three |
| DerivationOrders.SimpleCyclesAreDropped | Mura_project/src/mura/claim_model.py:661-690 | if no span on a cycle cites two spans on cycles, and dangling citations do not tell the members of a cycle apart, every order of the dictionary drops all members of all cycles |
| DerivationOrders.SimpleSurvivorsClosed | Mura_project/src/mura/claim_model.py:661-699 | and then whether the kept spans are closed does not depend on the order: exactly when every span that cites a flawed one is flawed |
| DerivationOrders.VisitMarks | Mura_project/src/mura/claim_model.py:661-686 | a visit keeps marks spreading along cycles and marks the visited span whenever it lies on a cycle |
| ClaimContract.Weakest | Mura_project/src/mura/claim_model.py:344-353 | the result is the weakest of the cited classes and the given one |
| ClaimContract.WeakestIsFixed | Mura_project/src/mura/claim_model.py:344-353 | recomputing a class from itself changes nothing exactly when no cited span is weaker, so the class the builder wrote is the one the checker recomputes |
| ClaimContract.Validate | Mura_project/src/mura/claim_model.py:1257-1404 | the checker accepts exactly the contracts whose every span, link, claim and conflict meets its rule and whose derivation graph is closed and acyclic |
| ClaimContract.ValidMeans | Mura_project/src/mura/claim_model.py:1257-1404 | those rules in terms of the lists of the contract: spans are exact slices of a known segment in their layer, name known people, have a recorded creator and cite spans of the contract without a cycle; links and conflicts refer to what is there, are unreviewed and quoted or backed by evidence; claims cite spans of their own segments that are no weaker than they are, carry the provenance of this extraction, and name links and conflicts that exist |
| ClaimContract.CandidateMeaning | Mura_project/src/mura/claim_model.py:154-189 | a proposed span is accepted exactly if its segment is known, its layer has it, its offsets delimit the quoted text there and the people it names are known; each code is given exactly when said |
| ClaimContract.CheckSpans | Mura_project/src/mura/claim_model.py:1277-1291 | the span loop passes exactly when every span meets the span rule |
| ClaimContract.CheckLinks | Mura_project/src/mura/claim_model.py:1297-1318 | the link loop passes exactly when every link meets the link rule |
| ClaimContract.CheckConflicts | Mura_project/src/mura/claim_model.py:1320-1337 | the conflict loop passes exactly when every conflict meets the conflict rule |
| ClaimContract.CheckClaims | Mura_project/src/mura/claim_model.py:1339-1404 | the claim loop passes exactly when every claim meets the claim rules |
| Conflicts.FilterConflicts | Mura_project/src/mura/claim_model.py:939-993 | accepted conflicts and issues, in order, for any list of conflicts |
| Conflicts.AcceptedAreOk | Mura_project/src/mura/claim_model.py:939-993 | every accepted conflict meets the rules of the separately written checker and comes from a proposed conflict with the same id and claims |
| Conflicts.OkIsAccepted | Mura_project/src/mura/claim_model.py:939-993 | a conflict that meets the rules of the checker is accepted unchanged |
| Conflicts.ClosedIsFixed | Mura_project/src/mura/claim_model.py:939-993 | filtering changes nothing exactly when every conflict already meets the rules of the checker |
| Conflicts.EveryRejectionReported | Mura_project/src/mura/claim_model.py:955-985 | for each proposed conflict: the result holds it with its id and claims, or an issue names it |
| Conflicts.ConflictMeaning | Mura_project/src/mura/claim_model.py:950-993 | a conflict is accepted exactly if its claims are known and it or one of its claims cites a known span; it keeps its own known spans, in order, or else those of its claims, each once; and which code is given otherwise |
| Conflicts.RejectionsReported | Mura_project/src/mura/claim_model.py:955-985 | an issue about a conflict is there exactly for each rejected conflict, with its unknown claims |
| Conflicts.SyncConflictIds | Mura_project/src/mura/claim_model.py:1006-1032 | the reverse index gives every claim the conflict ids that the definition by scanning all conflicts gives |
| Conflicts.ConflictIdsExact | Mura_project/src/mura/claim_model.py:1006-1032 | a claim carries the id of a conflict exactly when that conflict cites the claim |
| Conflicts.CloseConflicts | Mura_project/src/mura/claim_model.py:1244-1254 | afterwards conflicts cite known claims and evidence and claims carry exactly the ids of the conflicts citing them; nothing else of the extraction changes, and the issues are exactly those of the filter |
| Conflicts.SyncedIsClosed | Mura_project/src/mura/claim_model.py:1006-1032 | synchronising the ids of accepted conflicts closes both directions |
| ClaimMaterialization.GeneratedEvidenceMembers | Mura_project/src/mura/claim_model.py:305-341 | a whole-segment span is generated exactly for the transcript segments among the sources of the claim |
| ClaimMaterialization.LedgerBuilder.ChooseEvidence | Mura_project/src/mura/claim_model.py:786-829 | the usable ids, or generated ones where the fallback is allowed; the ledger grows only by the generated spans; an exception exactly when a generated span cannot be constructed. What the ids are is said by the RebuiltClaims rows, for every rebuilt claim |
| ClaimMaterialization.LedgerBuilder.ReportReferences | Mura_project/src/mura/claim_model.py:831-869 | the issues for unknown links, self-derivation and duplicate derivation |
| ClaimMaterialization.LedgerBuilder.MaterializeItem | Mura_project/src/mura/claim_model.py:773-930 | the rebuilt claim, its absence, or an exception; without one, the issues in order and a ledger that keeps everything it had |
| ClaimMaterialization.RebuiltIsGrounded | Mura_project/src/mura/claim_model.py:871-886 | a rebuilt claim meets every rule of the checker that does not concern conflicts: known evidence inside its segments, weakest class, matching provenance, known links |
| RebuiltClaims.OutcomeIsTurn | Mura_project/src/mura/claim_model.py:773-930 | one claim, whatever the dictionary: if it cites ids that are in the dictionary and lie in its source segments, it keeps exactly these, in order, and generates nothing; otherwise a person or relationship gets one whole-segment span for each transcript segment among its sources, with the ids of the naming scheme; any other claim is lost. Class, links, provenance and status are said field by field, and nothing else changes |
| RebuiltClaims.KeepsWhatFits | Mura_project/src/mura/claim_model.py:786-886 | over every surviving claim of a run of turns and the proposed claim it comes from: every cited id that fits is kept, in order; if there is one nothing else is in the list, otherwise the list is exactly the ids of the generated spans; the class is at least as weak as the inferred one and as each piece of evidence; the links are the proposed ones that were accepted |
| RebuiltClaims.GeneratedAreFallbacks | Mura_project/src/mura/claim_model.py:305-341 | the generated spans are the whole transcript segments among the sources, in order, with every field |
| RebuiltClaims.PutAllMeaning | Mura_project/src/mura/claim_model.py:828-829 | updating the dictionary changes only the entries of the generated ids |
| RebuiltClaims.IssuesAreReport | Mura_project/src/mura/claim_model.py:794-869 | the issues of one claim, in order: the cited ids that do not fit; the loss of the claim; its unknown links, self-derivation and repeated derivations |
| ContractAssembly.AcceptSpans | Mura_project/src/mura/claim_model.py:1086-1113 | the candidate ledger and its issues, span by span |
| ContractAssembly.CandidatesAreOk | Mura_project/src/mura/claim_model.py:154-189 | a span that passes candidate validation meets the span rule of the checker once it is stamped |
| ContractAssembly.CandidatesInOrder | Mura_project/src/mura/claim_model.py:1086-1113 | with distinct ids the candidate ledger is the list of accepted spans, in order, changed only in creator and repeated citations |
| ContractAssembly.RejectedSpansReported | Mura_project/src/mura/claim_model.py:1096-1105 | an issue about a candidate span is there exactly for each rejected span, with its code |
| ContractAssembly.FilterLinks | Mura_project/src/mura/claim_model.py:702-770 | accepted links and issues, in order, with the antecedent naming test as a parameter |
| ContractAssembly.EveryLinkAccounted | Mura_project/src/mura/claim_model.py:702-770 | each proposed link is accepted, or an issue names it with the first rule it breaks |
| ContractAssembly.LinkMeaning | Mura_project/src/mura/claim_model.py:715-760 | a link is accepted exactly if its segments, spans and people are known, its spans lie in its segments, one of them quotes the anaphor and, if it is resolved, its antecedents are named; and which code is given otherwise |
| ContractAssembly.LinksInOrder | Mura_project/src/mura/claim_model.py:714-770 | the accepted links are the proposed ones without objection, in order, changed only in their review status |
| ContractAssembly.AcceptedLinksAreOk | Mura_project/src/mura/claim_model.py:702-770 | every accepted link meets the link rule of the checker |
| ContractAssembly.GeneratedIsSound | Mura_project/src/mura/claim_model.py:817-829 | evidence generated for a claim meets no existing id, passes the span rule, supports the claim, and disturbs no claim built earlier |
| ContractAssembly.ItemKeepsInvariant | Mura_project/src/mura/claim_model.py:773-930 | one more claim keeps the whole build invariant, and with all names given nothing raises |
| ContractAssembly.GeneratedSpansAreIsolated | Mura_project/src/mura/claim_model.py:305-341 | generated spans neither cite nor are cited, so they change neither cycles nor closure |
| ContractAssembly.SurvivorsCiteSurvivors | Mura_project/src/mura/claim_model.py:638-699 | a surviving span cites no generated span |
| ContractAssembly.SpansRoundTrip | Mura_project/src/mura/claim_model.py:1225-1267 | writing the ledger out as a list and keying it by id again gives the same ledger |
| ContractAssembly.MaterializeClaims | Mura_project/src/mura/claim_model.py:1128-1219 | all claim loops over one growing ledger: the claims, the ledger and the issues of every turn, in order; an exception ends them |
| ContractAssembly.BuildIsRun | Mura_project/src/mura/claim_model.py:1128-1219 | a build that raises nothing is a run of turns as RebuiltClaims describes them, from the filtered spans to the final dictionary, and reports what the turns report |
| ContractAssembly.BuildIsSound | Mura_project/src/mura/claim_model.py:1128-1219 | with all names given, no exception is raised and the build invariant holds after every claim |
| ContractAssembly.BuiltAreSurvivors | Mura_project/src/mura/claim_model.py:1128-1219 | the claims of a build are exactly those that may fall back on their segments or have usable evidence at their turn, in order |
| ContractAssembly.SurvivesIffSupported | Mura_project/src/mura/claim_model.py:786-869 | a claim without fallback survives exactly if it cites, inside its own segments, a surviving proposed span or one generated for an earlier claim |
| ContractAssembly.AssembledObjects | Mura_project/src/mura/claim_model.py:1065-1241 | every span, link, conflict and claim of the assembled contract meets its rule |
| ContractAssembly.AssembledGraph | Mura_project/src/mura/claim_model.py:1065-1241 | the graph of the assembled contract is acyclic, and closed exactly when the spans kept by the filter are |
| ContractAssembly.Materialize | Mura_project/src/mura/claim_model.py:1065-1241 | for every well-formed extraction the whole result: a run of turns over the claims, in order, changed afterwards only in their conflict ids, and exactly the issues of all stages; each proposed claim, link and conflict survives or is named in an issue. For names that are not empty, segments known to the transcript and ids that do not collide it never raises, every object passes its own check, nothing cycles, surviving spans are unchanged, and the separately written checker accepts if and only if no member of a proposed derivation cycle survived and every span that cites a flawed one is flawed; when cycles are simple or absent the second condition alone decides |
| ContractAssembly.ProposalMeetsHypotheses | Mura_project/src/mura/claim_model.py:1086-1126 | a concrete two-span extraction meets all hypotheses and proposes the citations that keep a dangling span |
| ContractAssembly.BuildRejected | Mura_project/src/mura/claim_model.py:1065-1241 | building that extraction returns a contract, and the checker rejects it |
| BuildFailures.FailsExactly | Mura_project/src/mura/claim_model.py:1065-1241 | the builder raises if and only if the model or revision of the transcription is not named, a claim has an empty id, a person or relationship names no transcript segment, the recording or speaker is not named while some claim has evidence, or evidence would be generated for a segment with an empty id; without such a segment the condition does not depend on the run |
| BuildFailures.BlockedMeans | Mura_project/src/mura/claim_model.py:1065-1241 | the reasons that do not depend on the order of the claims, in terms of the fields |
| BuildFailures.MeetsEmptySegmentMeans | Mura_project/src/mura/claim_model.py:305-341 | the remaining reason: a person or relationship without fitting evidence at its turn has a segment with an empty id |
| BuildFailures.ItemRaises | Mura_project/src/mura/claim_model.py:773-880 | why one claim makes the build raise: exactly the empty id, the missing segment, the unnamed recording or speaker, or the unnamed segment |
| BuildFailures.BuildRaises | Mura_project/src/mura/claim_model.py:1128-1219 | the claim loops raise exactly when the turn of some claim does |
| CoreferenceContract.AddedLinksPass | Mura_project/src/mura/coreference.py:82-172 | every link that the augmentation adds is accepted into the contract unless it is resolved and its antecedents are not named by their primary names; every span it adds is in the contract |
| CoreferenceContract.AdditionVerdict | Mura_project/src/mura/claim_model.py:702-770 | the filter of links has exactly that objection to a link built for a context |
| CoreferenceContract.UnderivedSpanIsKept | Mura_project/src/mura/claim_model.py:638-699 | a proposed span that passes its own check and cites nothing survives the derivation filter in every order |
| CostGuards.CostGuardService.ReserveBudget | Mura_project/src/mura/cost_guards.py:144-282 | the whole new table and the answer, for every table with unique keys: a reserved or committed row with the key is returned; otherwise the request is over budget exactly if the larger of the committed and the recorded cost of the last 24 hours, plus open holds, plus its cost exceed the budget, and the refusal names these amounts; otherwise it gets a row with its cost, audio, key and expiry exactly if no row has its id or key |
| CostGuards.CostGuardService.CommitReservation | Mura_project/src/mura/cost_guards.py:284-322 | the whole new table, field by field: only the named row changes, whatever its status |
| CostGuards.CostGuardService.ReleaseReservation | Mura_project/src/mura/cost_guards.py:324-351 | the whole new table, field by field: only an open hold changes |
| CostGuards.CostGuardService.ExpireStaleReservations | Mura_project/src/mura/cost_guards.py:353-373 | the whole new table, field by field, and the number of rows that changed; the reported consumption is the same before and after |
| CostGuards.CostGuardService.CheckBudgetAvailable | Mura_project/src/mura/cost_guards.py:94-142 | it answers yes exactly if the larger of the committed and the recorded cost of the last 24 hours, plus open holds, plus the amount are within the budget, and so exactly if a new request of that amount would be granted |
| CostGuards.GrantedExactlyIfItFits | Mura_project/src/mura/cost_guards.py:185-277 | a request whose id and key no row has is granted if and only if that sum is within the budget; the new row has every field as requested, and the refusal exactly the two amounts |
| CostGuards.ReserveDecides | Mura_project/src/mura/cost_guards.py:169-277 | each of the four answers is given exactly under its condition, said about rows, statuses and sums |
| CostGuards.ConsumptionIsSpent | Mura_project/src/mura/cost_guards.py:189-226 | the consumption of the model is the sum over rows and records that the three queries select |
| CostGuards.SweepKeepsTotals | Mura_project/src/mura/cost_guards.py:353-373 | the sweep changes neither the committed nor the open total |
| CostGuards.ReplaceRow | Mura_project/src/mura/cost_guards.py:284-351 | changing one row moves the totals by the difference of its charges and nothing else |
| CostGuards.CommitEffect | Mura_project/src/mura/cost_guards.py:299-320 | a commit raises the exposure exactly when the committed amount of a row in the window exceeds what the row still held |
| CostGuards.CommitWithinBudget | Mura_project/src/mura/cost_guards.py:299-320 | the table is within the budget after a commit exactly when the exposure without the row leaves room for the amount paid in the window |
| CostGuards.ReleaseFrees | Mura_project/src/mura/cost_guards.py:337-349 | releasing an open hold frees exactly its amount |
| CostGuards.StepKeepsInv | Mura_project/src/mura/cost_guards.py:144-373 | every proper step keeps exposure within the budget, ids and keys unique, and costs non-negative |
| CostGuards.BudgetHolds | Mura_project/src/mura/cost_guards.py:144-373 | over every proper run of reserve, commit, release, sweep, usage and clock steps the table never holds more than the daily budget |
| CostGuards.ConsumptionWithinBudget | Mura_project/src/mura/cost_guards.py:189-226 | at the end of a proper run the reported consumption is within the budget exactly when telemetry plus open holds is; telemetry within committed cost suffices |
| CostGuards.ConsumptionStaysExactly | Mura_project/src/mura/cost_guards.py:189-226 | over every proper run that starts within the budget, the reported consumption never exceeds it if and only if each usage record, when it is made, fits beside the open holds |
| CostGuards.StepKeepsConsumption | Mura_project/src/mura/cost_guards.py:144-373 | among the proper steps only a record that does not fit takes the reported consumption over the budget |
| CostGuards.TimeNeverRaisesConsumption | Mura_project/src/mura/cost_guards.py:189-226 | neither waiting nor sweeping raises the reported consumption |
| CostGuards.RowsPersist | Mura_project/src/mura/cost_guards.py:144-373 | over any run, proper or not, rows are never removed, reordered or re-keyed |
| CostGuards.StepKeepsKeysUnique | Mura_project/migrations/versions/20260927_0020_cost_guards.py:74-80 | every step, guarded or not, keeps idempotency keys unique |
| CostGuards.KeyIsSpent | Mura_project/migrations/versions/20260927_0020_cost_guards.py:74-80 | over every run, unguarded commits included: once a key has a row no later request with it adds one; a row that is reserved or committed is returned, the key of a released or expired row is refused |
| CostGuards.UnsettledUsageCountsTwice | Mura_project/src/mura/cost_guards.py:189-226 | usage recorded before its hold is settled does not fit beside it and is counted twice: a run of two steps reports 40 dollars of a budget of 25 |
| CostGuards.LateCommitBreaksBudget | Mura_project/src/mura/cost_guards.py:306-311 | a run of four steps from the empty table: the hold expires, its money is promised again, and the commit, which has no status guard, takes the table to 40 dollars of a budget of 25 |
| AiCost.CalculateAiCost | Mura_project/src/mura/cost.py:76-136 | the price is the half-up rounding of the exact price over all branches, and none exactly when no charge applies |
| AiCost.PriceOfKnownAmounts | Mura_project/src/mura/cost.py:99-133 | the price of known amounts: misses, hits and output by the token, audio by the second |
| AiCost.PartsAddUp | Mura_project/src/mura/cost.py:99-133 | the parts are priced by themselves; a part without a count or a rate costs nothing |
| AiCost.CountsAreClamped | Mura_project/src/mura/cost.py:101-131 | negative counts are zero, cache hits beyond the input are the whole input, an unknown number of hits is none |
| AiCost.NoCachedRate | Mura_project/src/mura/cost.py:108-117 | without a cached rate a hit costs what a miss costs |
| AiCost.HalfUpIsNearest | Mura_project/src/mura/cost.py:136 | rounding moves a price by at most half a millionth, halves away from zero |
| AiCost.HalfUpMonotone | Mura_project/src/mura/cost.py:136 | rounding keeps the order of prices |
| AiCost.CostMonotone | Mura_project/src/mura/cost.py:76-136 | with a cached rate at most the input rate the rounded price grows with every count and never grows with cache hits |
| AiCost.CacheHelpsExactlyWhenCheaper | Mura_project/src/mura/cost.py:101-117 | cache hits never raise the rounded price exactly when the cached rate is at most the input rate |
| AiCost.DearCacheShows | Mura_project/src/mura/cost.py:101-117 | if cached tokens are dearer, some token count shows it after rounding |
| AiCost.EstimateCoversActual | Mura_project/src/mura/cost.py:76-136 | an estimate with at least the actual counts and no cache discount is at least the actual price, so the settlement meets the hypothesis of the budget protocol |
| QuoteScopes.QuoteScopeAt | Mura_project/src/mura/coreference_boundaries.py:21-54 | the scanner is outside exactly when the text before the position is plain characters and complete nested quotations, and outside is never malformed |
| QuoteScopes.OutsideMeansProperlyQuoted | Mura_project/src/mura/coreference_boundaries.py:21-54 | the stack is empty exactly for texts of a grammar that has no stack |
| QuoteScopes.DocIsTransparent | Mura_project/src/mura/coreference_boundaries.py:21-54 | reading a properly quoted text leaves the stack and the malformed flag alone |
| QuoteScopes.Parse | Mura_project/src/mura/coreference_boundaries.py:21-54 | a scan without dead frames has read a text of the grammar whose open quotations are its frames |
| QuoteScopes.DeadFrameStays | Mura_project/src/mura/coreference_boundaries.py:24-46 | a frame without a usable closing mark is never removed |
| QuoteScopes.NeverOutsideAgain | Mura_project/src/mura/coreference_boundaries.py:24-46 | after a stray closing mark or any low opening mark no later position is outside |
| QuoteScopes.SameScopeSameQuotation | Mura_project/src/mura/coreference_boundaries.py:21-54 | two positions with the same scope other than outside lie in one quotation that was never left between them |
| QuoteScopes.SpanOutside | Mura_project/src/mura/coreference_boundaries.py:57-72 | a span is outside exactly when the text before each of its visible characters is properly quoted; for a span of blanks, exactly when the text before its start is |
| TextUnits.TrimmedSpan | Mura_project/src/mura/coreference_units.py:40-45 | none exactly for blank stretches; otherwise the span between the first and last visible characters |
| TextUnits.FindWords | Mura_project/src/mura/coreference_units.py:51 | the maximal runs of visible characters, which tile the stretch |
| TextUnits.ChunkSpan | Mura_project/src/mura/coreference_units.py:48-82 | chunks tile the span and are at most 420 characters, long words included; a chunk ends only where the next word does not fit any more or where an over-long word ends |
| TextUnits.PiecesTile | Mura_project/src/mura/coreference_units.py:66-72 | the pieces of an over-long word tile it and are at most 420 characters |
| TextUnits.SplitStrongSwitches | Mura_project/src/mura/coreference_units.py:85-97 | clauses tile the stretch wherever the switches are; a switch lies between any two of them and none inside one |
| TextUnits.FindSentences | Mura_project/src/mura/coreference_units.py:32 | sentence matches follow one another without a gap from the first non-terminator to the end, and each is all non-terminators from the last run of terminators on, then all terminators after them |
| TextUnits.SegmentUnits | Mura_project/src/mura/coreference_units.py:100-114 | units are non-empty exact trimmed slices of at most 420 characters that tile the text after its leading run of terminators; inside a unit a terminator is followed only by terminators and lies no switch of its sentence; between neighbours lies a terminator or a switch, or the next word does not fit into the earlier one, or that one ends an over-long word |
| TextUnits.OrderedUnits | Mura_project/src/mura/coreference_units.py:117-122 | the units of a transcript are non-empty exact slices of its segments, and those of one segment do not overlap |
| TextUnits.TilesMeaning | Mura_project/src/mura/coreference_units.py:100-114 | a tiling is ordered and disjoint, and every visible character lies in exactly one span |
| CoreferenceContexts.TargetIdsMeaning | Mura_project/src/mura/coreference_units.py:155-170 | targets are exactly the people named in unquoted text within 110 characters after the kinship word and before the unit ends, sorted and without repetition |
| CoreferenceContexts.UnitIndex | Mura_project/src/mura/coreference_units.py:173-188 | the first unit of the segment that contains the anaphor, or none if none does |
| CoreferenceContexts.ContextUnits | Mura_project/src/mura/coreference_units.py:197-205 | the current unit, preceded by its neighbour exactly when both fit into 420 characters |
| CoreferenceContexts.CandidatesMeaning | Mura_project/src/mura/coreference_units.py:208-244 | candidates are sorted and never targets; they are the unquoted names before the anaphor in its unit or, only if there are none, those of the preceding unit; there are some exactly when somebody is named there |
| CoreferenceContexts.ContextUnitExists | Mura_project/src/mura/coreference_units.py:247-264 | the search for a unit that names every candidate never fails, so that branch is dead |
| CoreferenceContexts.ContextUnitNamesAll | Mura_project/src/mura/coreference_units.py:247-264 | the context unit names every candidate, and is the unit of the anaphor if that one does |
| CoreferenceContexts.ExamineAnaphor | Mura_project/src/mura/coreference_context.py:70-136 | one turn of the loop, with every early continue: it yields a context exactly for an eligible anaphor, and a justified one |
| CoreferenceContexts.ContextExactly | Mura_project/src/mura/coreference_context.py:70-136 | an anaphor has a context exactly when it lies in a unit together with its nearest kinship word, both are unquoted, and somebody who is not a target is named where a candidate may be |
| CoreferenceContexts.BoundedContexts | Mura_project/src/mura/coreference_context.py:51-137 | every context returned is justified: unquoted anaphor and kinship in one unit, candidates named where they may be, targets never candidates, a context unit that names all candidates, and resolved exactly for one candidate or, in the plural, an explicit pair |
| CoreferenceContexts.ContextIsJustified | Mura_project/src/mura/coreference_context.py:68-136 | the justification of a single context, for every discourse |
| CoreferenceContexts.SingularIsUnique | Mura_project/src/mura/coreference_context.py:117-125 | a singular anaphor is resolved exactly when no two different people qualify |
| CoreferenceAugmentation.Augment | Mura_project/src/mura/coreference.py:82-172 | the loop computes the specified augmentation, counts the links it adds, and keeps ids unique; every added link states a justified context, and every added span is a non-empty exact slice. If the kinship words have the roles of their relations, the id of an added link is in the links of a relationship exactly if the relationship matched when the link was added, and relationships gain exactly the evidence and segments of these links |
| CoreferenceAugmentation.EdgeMeaning | Mura_project/src/mura/coreference_materialization.py:47-124 | for a kinship word with the roles of its relation: the possessor and the target have these roles in the expected edge, the parent or older sibling first; a relationship matches exactly if it relates the two in these roles, spouses either way round |
| CoreferenceAugmentation.MatchesMeaning | Mura_project/src/mura/coreference_materialization.py:127-142 | a relationship matches a context exactly if it lies in the segment and relates some candidate to some target as the kinship word says |
| CoreferenceAugmentation.LinkSupportsExactly | Mura_project/src/mura/coreference.py:99-159 | over every run: the id of an added link is in the links of a relationship exactly if the relationship matched in the turn that added the link; a link that is not resolved has such a relationship |
| CoreferenceAugmentation.RelationshipsGainExactly | Mura_project/src/mura/coreference_materialization.py:259-289 | after a run a relationship has exactly the evidence and segments it had and those of the added links in its list |
| CoreferenceAugmentation.EveryTurnSettles | Mura_project/src/mura/coreference.py:99-146 | every context that is resolved or matches a relationship at its turn has its link afterwards, or one of the ids it needs was taken |
| CoreferenceAugmentation.RunSaysContexts | Mura_project/src/mura/coreference.py:60-79 | every added link and its two spans say, field by field, what a justified context says |
| CoreferenceAugmentation.OrderedSegmentIds | Mura_project/src/mura/coreference_materialization.py:34-44 | the requested ids without duplicates, none lost |
| CoreferenceAugmentation.OrderedByTranscript | Mura_project/src/mura/coreference_materialization.py:34-44 | they stand in transcript order, ids unknown to the transcript last |
| CoreferenceAugmentation.BuildEvidence | Mura_project/src/mura/coreference_materialization.py:174-215 | two spans with different ids |
| CoreferenceAugmentation.AddedEvidenceIsValid | Mura_project/src/mura/coreference_materialization.py:174-215 | both spans of a context are non-empty exact slices of their segments and pass candidate validation of the contract |
| CoreferenceAugmentation.AddsOnlyForContexts | Mura_project/src/mura/coreference.py:99-146 | every link that a run adds has its own two spans, and all three are what is built for one of the contexts |
| CoreferenceAugmentation.RunIsJustified | Mura_project/src/mura/coreference.py:82-172 | every link a run adds states a justified context: its candidates, as antecedents all of them or nobody, and for a resolved singular anaphor exactly one, who is not a target; every span it adds is a non-empty exact slice |
| CoreferenceAugmentation.RunAddsValidEvidence | Mura_project/src/mura/coreference.py:82-172 | every span a run adds passes candidate validation of the contract |
| CoreferenceAugmentation.AllSettle | Mura_project/src/mura/coreference.py:99-146 | after a run every resolved context has its link, or one of the ids it needs was taken |
| CoreferenceAugmentation.ContextPeopleKnown | Mura_project/src/mura/coreference_context.py:93-107 | candidates and targets of a justified context are known people |
| CoreferenceAugmentation.IdsStayUnique | Mura_project/src/mura/coreference.py:92-145 | link and evidence ids stay unique for any naming functions |
| CoreferenceAugmentation.AugmentOnlyGains | Mura_project/src/mura/coreference.py:82-172 | links and evidence are only appended; relationships lose exactly the links that are neither unresolved nor resolved by rules or by a person, and gain only links added by this run |
| CoreferenceAugmentation.SecondCleanIsIdentity | Mura_project/src/mura/coreference_materialization.py:145-171 | after one run no relationship holds an untrusted link |
| CoreferenceAugmentation.SecondRunAddsNoResolved | Mura_project/src/mura/coreference.py:82-172 | a second run adds no resolved link and takes nothing from any relationship |
| SpeechChunks.BuildSmartRanges | Mura_project/services/kaggle_asr/chunking.py:45-72 | the grouping of the sorted regions, for any limits, and the error for a bad sample rate |
| SpeechChunks.RangesAreGood | Mura_project/services/kaggle_asr/chunking.py:45-72 | the ranges of regions in any order cover every region whole, start and end with regions, are single regions or fit the chunk limit, contain no silence longer than the gap limit, and each opens with a region that did not go with the range before |
| SpeechChunks.GroupHasNoLongSilence | Mura_project/services/kaggle_asr/chunking.py:62-69 | inside a range no silence is longer than the gap limit |
| SpeechChunks.GroupCovers | Mura_project/services/kaggle_asr/chunking.py:57-72 | every speech region lies whole inside some range |
| SpeechChunks.GroupSizes | Mura_project/services/kaggle_asr/chunking.py:62-72 | a range is a single region or fits the chunk limit |
| SpeechChunks.GroupSplits | Mura_project/services/kaggle_asr/chunking.py:62-69 | the region that opened a range makes the range before it too long or lies further away than the gap limit |
| SpeechChunks.GroupInOrder | Mura_project/services/kaggle_asr/chunking.py:57-72 | disjoint regions give disjoint ranges in order |
| SpeechChunks.ApplyEdgePadding | Mura_project/services/kaggle_asr/chunking.py:75-99 | the padded ranges, and an error exactly when a rate is bad or a padded range is no region |
| SpeechChunks.PaddedBounds | Mura_project/services/kaggle_asr/chunking.py:88-97 | a padded range stays in the recording and within the final limit |
| SpeechChunks.PaddedKeepsRange | Mura_project/services/kaggle_asr/chunking.py:88-97 | padding keeps the whole range exactly when the overflow over the final limit is at most twice the padding on the right and at most one more than twice the padding on the left; a range at the start of the recording can lose leading speech |
| SpeechChunks.LeadingSpeechLost | Mura_project/services/kaggle_asr/chunking.py:88-97 | such a range: 24.8 s of speech at the start of a recording lose their first 2800 samples at 16 kHz |
| SpeechChunks.PlanChunks | Mura_project/services/kaggle_asr/chunking.py:45-99 | with default settings and regions of at most 21.1 s, every region lies whole inside a chunk, no chunk exceeds 24.9 s or leaves the recording, only neighbours overlap, by at most 0.9 s |
| SpeechChunks.FarApart | Mura_project/services/kaggle_asr/chunking.py:62-90 | ranges that are not neighbours are further apart than two paddings |
| TranscriptMerge.ExactOverlapSize | Mura_project/services/kaggle_asr/chunking.py:106-117 | the longest overlap of at least two equal non-empty normalised words within the limit, or zero |
| TranscriptMerge.CutFor | Mura_project/services/kaggle_asr/chunking.py:147-157 | the words taken off at one boundary, and whether the boundary overlaps acoustically |
| TranscriptMerge.MergeParts | Mura_project/services/kaggle_asr/chunking.py:120-169 | for every list of parts, taken chronologically and by index where they start together: input words equal merged words plus removed words, each part can be read off the normalised merged words as a contiguous stretch, and the diagnostics count the parts heard twice at their start and those without words |
| TranscriptMerge.LimitMeaning | Mura_project/services/kaggle_asr/chunking.py:154-155 | the limit of an overlap is the largest number within the four that the source takes the minimum of |
| TranscriptMerge.SortIsChronological | Mura_project/services/kaggle_asr/chunking.py:130 | the order of the parts: by start, then by index, otherwise as given |
| TranscriptMerge.SpokenMeaning | Mura_project/services/kaggle_asr/chunking.py:137-163 | the part that an overlap is measured from is the last one with words |
| TranscriptMerge.PartReadable | Mura_project/services/kaggle_asr/chunking.py:137-163 | the kept words of a part follow words equal to the ones removed |
| TranscriptMerge.MergeConserves | Mura_project/services/kaggle_asr/chunking.py:137-163 | words kept and words removed add up |
| TranscriptMerge.NoOverlapNoCut | Mura_project/services/kaggle_asr/chunking.py:147-159 | without acoustic overlap nothing is removed, whatever is repeated |
| SpeechSegments.FindSegments | MURA-app/scripts/align-mascot-audio.py:107-125 | segments are not empty as a list, ordered, more than a bridge apart and inside the envelope; they are the long runs, or everything when no run is long |
| SpeechSegments.ThresholdMeaning | MURA-app/scripts/align-mascot-audio.py:109-112 | the threshold is the larger of 2.2 times the 10th percentile and 0.075 times the 95th |
| SpeechSegments.KeptAreLong | MURA-app/scripts/align-mascot-audio.py:124-125 | only runs of at least 90 ms are kept; if there is none, the whole recording is one segment |
| SpeechSegments.Scan | MURA-app/scripts/align-mascot-audio.py:114-123 | the loop that extends the last run in place computes the runs |
| SpeechSegments.RunsAreRuns | MURA-app/scripts/align-mascot-audio.py:114-123 | a run starts and ends voiced and has no pause as long as the bridge |
| SpeechSegments.RunsCover | MURA-app/scripts/align-mascot-audio.py:114-123 | every voiced frame lies in a run |
| SpeechSegments.SpeechIsKept | MURA-app/scripts/align-mascot-audio.py:124-125 | a voiced frame is in a returned segment or in a run that is too short |
| SpeechSegments.CutsAreLongest | MURA-app/scripts/align-mascot-audio.py:138-145 | the cuts are one fewer than the sentences, strictly increasing, and no other pause is longer than a cut; of equally long pauses the later ones are cuts |
| SpeechSegments.GroupSegments | MURA-app/scripts/align-mascot-audio.py:147-163 | one run when there are fewer segments than sentences; otherwise a partition into one non-empty group per sentence that ends at the cuts; an error exactly without sentences |
| SpeechLayout.Walk | MURA-app/scripts/align-mascot-audio.py:180-194 | the walk uses exactly the needed seconds of speech and stops inside a span |
| SpeechLayout.PositionUses | MURA-app/scripts/align-mascot-audio.py:178-195 | the speech before the position of the walk is exactly what the walk has used, and the position is in speech |
| SpeechLayout.LayWords | MURA-app/scripts/align-mascot-audio.py:168-195 | each word starts and ends inside speech, takes exactly its syllable share, and starts where the one before ended; with any syllables at all the words use the whole speech |
| SpeechLayout.SharesAdd | MURA-app/scripts/align-mascot-audio.py:171-177 | shares of words add up to the share of their weights |
| WordTiming.Tidy | MURA-app/scripts/align-mascot-audio.py:203-207 | the in-place pass computes the closed form from the old contents of the list |
| WordTiming.TidiedIsSpaced | MURA-app/scripts/align-mascot-audio.py:203-207 | starts grow by at least 40 ms, later words last at least 60 ms, nothing moves earlier, and exactly the lists already spaced are left alone |
| WordTiming.StartIsForced | MURA-app/scripts/align-mascot-audio.py:203-207 | a start is the latest time that some word up to it forces on it |
| WordTiming.TidiedIsEarliest | MURA-app/scripts/align-mascot-audio.py:203-207 | no spaced list that respects the given times is earlier anywhere |
| WordTiming.DelayIsBounded | MURA-app/scripts/align-mascot-audio.py:203-207 | starts in order are delayed by at most 40 ms for each earlier word |
| WordTiming.RoundMonotone | MURA-app/scripts/align-mascot-audio.py:199-200 | rounding keeps order, moves by at most half, and takes a tie to the even number |
| WordTiming.CuesAreNear | MURA-app/scripts/align-mascot-audio.py:199-200 | rounded times are the nearest milliseconds to the times cut off at the ends of the clip |
| WordTiming.ScriptInOrder | MURA-app/scripts/align-mascot-audio.py:165-202 | across all sentences every word ends before the next one starts |
| WordTiming.GroupsFollow | MURA-app/scripts/align-mascot-audio.py:147-163 | groups of a partition are ordered spans and follow one another in time |
| WordTiming.Align | MURA-app/scripts/align-mascot-audio.py:134-207 | one timing per word of the script; with enough segments one group per sentence, cut at the longest pauses, otherwise a single group; before rounding the words are chronological, lie in the speech of their own group and take their share; after the last pass they are spaced and slightly later at most; an error exactly without sentences |
| PointerGesture.Machine.constructor | MURA-app/src/hooks/pointer-gesture.ts:83-90 | a new machine tracks nothing |
| PointerGesture.Machine.Down | MURA-app/src/hooks/pointer-gesture.ts:105-115 | the whole new state after a press, and the invariant |
| PointerGesture.Machine.MoveTo | MURA-app/src/hooks/pointer-gesture.ts:117-158 | the whole new state and the movement, through every branch, and the invariant |
| PointerGesture.Machine.Forget | MURA-app/src/hooks/pointer-gesture.ts:92-97 | the whole new state after a release: the pan origin is the last position of the first remaining pointer |
| PointerGesture.Machine.Up | MURA-app/src/hooks/pointer-gesture.ts:160-162 | the whole new state, also for pointers that are not tracked |
| PointerGesture.Machine.ClearAll | MURA-app/src/hooks/pointer-gesture.ts:164-171 | everything is forgotten except how far the gesture went |
| PointerGesture.StepKeepsValid | MURA-app/src/hooks/pointer-gesture.ts:83-181 | every event keeps: a pan origin exactly while a pointer is down, equal to the last position of a sole pointer |
| PointerGesture.TracksWhatIsHeld | MURA-app/src/hooks/pointer-gesture.ts:105-171 | after any events the machine tracks exactly the pointers that the events alone say are held, each at its last sample |
| PointerGesture.GesturesFollowThePointer | MURA-app/src/hooks/pointer-gesture.ts:117-158 | after any events a move pans exactly when it has a button down and its pointer is the only one held, by its own displacement since its previous sample; nothing comes out of a pointer that is not held |
| PointerGesture.PansTelescope | MURA-app/src/hooks/pointer-gesture.ts:145-158 | while one finger is down the pans add up to its whole displacement, whatever other pointers do |
| PointerGesture.NetMovementIsDrag | MURA-app/src/hooks/pointer-gesture.ts:149 | the travelled distance of a finger is at least how far it is from where it was, so beyond the threshold it counts as a drag, however small its steps |
| PointerGesture.DragLasts | MURA-app/src/hooks/pointer-gesture.ts:164-180 | once dragged, a gesture stays a drag until the next first press |
| PointerGesture.PinchIsNeverTap | MURA-app/src/hooks/pointer-gesture.ts:140-146 | a pinch makes the rest of the gesture a drag |
| PointerGesture.FreshStep | MURA-app/src/hooks/pointer-gesture.ts:105-139 | every event keeps the remembered pinch distance equal to the present one, except a repeated press of a pinching pointer with a third one down |
| PointerGesture.RepeatedPressKeepsOldDistance | MURA-app/src/hooks/pointer-gesture.ts:105-115 | after that event the distance is right exactly if it happens to be unchanged |
| PointerGesture.RepeatedPressIsStale | MURA-app/src/hooks/pointer-gesture.ts:105-115 | a concrete run reaches a stale distance |
| PointerGesture.PinchesTelescope | MURA-app/src/hooks/pointer-gesture.ts:132-147 | through a pinch the factors multiply to the ratio of the last to the first finger distance |
| PointerGesture.PinchMeaning | MURA-app/src/hooks/pointer-gesture.ts:132-147 | a pinch is around the middle between the two fingers that pressed first, by the ratio of their distances |
| PanZoom.ClampScale | MURA-app/src/hooks/use-pan-zoom.ts:20 | the scale is within 0.15 to 1.5, and unchanged exactly if it was |
| PanZoom.Canvas.ZoomAt | MURA-app/src/hooks/use-pan-zoom.ts:94-110 | the whole new transform, with and without a mounted canvas: the clamped scale, and the world point under the pointer stays under it |
| PanZoom.Canvas.ZoomBy | MURA-app/src/hooks/use-pan-zoom.ts:236-243 | zooming about the middle of the canvas, whose world point stays, and nothing before it is mounted |
| PanZoom.Canvas.PanBy | MURA-app/src/hooks/use-pan-zoom.ts:246-252 | the whole new transform |
| PanZoom.Canvas.OnPointerMove | MURA-app/src/hooks/use-pan-zoom.ts:131-150 | gesture state and transform after a move |
| PanZoom.ZoomKeepsPoint | MURA-app/src/hooks/use-pan-zoom.ts:102-108 | the world point under the pointer stays under it, clamped or not |
| PanZoom.ZoomMovesTheRest | MURA-app/src/hooks/use-pan-zoom.ts:102-108 | no other screen point keeps its world point unless the scale did not change |
| PanZoom.ZoomBackRestores | MURA-app/src/hooks/use-pan-zoom.ts:94-110 | zooming back to the old scale at the same point restores the transform exactly |
| PanZoom.Canvas.React | MURA-app/src/hooks/use-pan-zoom.ts:112-252 | the handlers: view and gesture after any action |
| PanZoom.CanvasAfter | MURA-app/src/hooks/use-pan-zoom.ts:94-252 | over every run of pointer, wheel, button, arrow-key and fit actions the scale stays within 0.15 to 1.5 and the gesture stays valid |
| PanZoom.TouchesMoveTheView | MURA-app/src/hooks/use-pan-zoom.ts:131-150 | runs of pointer events are such runs, and move the view as specified |
| PanZoom.Canvas.OnClickCapture | MURA-app/src/hooks/use-pan-zoom.ts:172-176 | a click is swallowed exactly when the gesture went further than the threshold |
| PanZoom.FingerHoldsItsPoint | MURA-app/src/hooks/use-pan-zoom.ts:131-150 | over every run with one finger down the world point under the finger stays under it |
| PanZoom.VisibleIffRoom | MURA-app/src/hooks/use-pan-zoom.ts:42-72 | every point of the bounds is visible exactly when the drawn graph is no larger than the room |
| PanZoom.FitShowsEverything | MURA-app/src/hooks/use-pan-zoom.ts:42-72 | with a pixel of room each way every point of the bounds is visible exactly when the unclamped scale is at least 0.15 |
| PanZoom.FitIsCentred | MURA-app/src/hooks/use-pan-zoom.ts:65-71 | the middle of the bounds lands in the middle of the uncovered canvas |
| PanZoom.IdealScaleMeaning | MURA-app/src/hooks/use-pan-zoom.ts:50-64 | the unclamped scale is the largest one that is at most 1 and fits the graph into the room |
| IsoDates.IsoRoundTrip | Mura_project/src/mura/claim_semantics.py:496-509 | the printed text reads back as the day exactly if the day exists |
| IsoDates.IsoOrder | Mura_project/src/mura/claim_semantics.py:504-509 | comparing printed days as text compares the days |
| IsoDates.PaddedOrder | Mura_project/src/mura/claim_semantics.py:504-509 | zero-padded numbers compare as text as they do as numbers |
| IsoDates.YearBeforeDay | Mura_project/src/mura/claim_semantics.py:504-509 | a bare year sorts before exactly the days of that year and later |
| TemporalExpressions.ExactValuesReadBack | Mura_project/src/mura/claim_semantics.py:565-610 | an exact date is produced exactly for a written day that exists, and reads back as that day; a written day that does not exist yields no date |
| TemporalExpressions.BoundsMean | Mura_project/src/mura/claim_semantics.py:612-762 | a real day lies between the printed bounds, compared as text, exactly if it is in the month, years, decade or side of a year that the expression names |
| TemporalExpressions.YearsAndMonthsReadBack | Mura_project/src/mura/claim_semantics.py:612-762 | a year or month is given as a value exactly when the text names one before anything else, the value reads back as it, and only approximate wording adds bounds |
| TemporalExpressions.IssuesExactly | Mura_project/src/mura/claim_semantics.py:540-790 | each issue of the normaliser is raised exactly when there is reason for it, and never together with another |
| TemporalExpressions.RelationsExactly | Mura_project/src/mura/claim_semantics.py:690-780 | what a relative date is relative to, and which bound it has |
| TemporalExpressions.MonthBoundsAreItsDays | Mura_project/src/mura/claim_semantics.py:612-637 | approximate month bounds are the first and last day; both exist exactly unless the year is 0 |
| TemporalExpressions.ParseHasGoodShape | Mura_project/src/mura/domain/models.py:537-563 | no output of the normaliser violates the shape validator of dates, so no lower bound exceeds its upper bound |
| TemporalExpressions.ApproximationKeptExactly | Mura_project/src/mura/claim_semantics.py:1202-1210 | a date from approximate wording passes the guard against silent exactness exactly in the month, decade and plain year branches |
| TemporalExpressions.AboutADayBecomesExact | Mura_project/src/mura/claim_semantics.py:582-610 | approximate wording before a full date is dropped: findings of 5 May 1950 with approximate wording give that exact day |
| TemporalExpressions.ClaimsNeverChangeTheDate | Mura_project/src/mura/claim_semantics.py:798-827 | two proposals with the same wording give the same date, whatever else they claim |
| TemporalExpressions.OverstatementIsReported | Mura_project/src/mura/claim_semantics.py:806-827 | overstated precision is reported exactly when an exact day is claimed of wording read as approximate, or a value is given for wording that leaves its anchor open; no issue is lost or repeated |
| Clauses.SplitClauses | Mura_project/src/mura/claim_semantics.py:262-279 | clauses are exact slices that tile the text with its boundaries blanked out, and a boundary lies between any two of them; a text with nothing else visible is one clause |
| Clauses.ClausesMeaning | Mura_project/src/mura/claim_semantics.py:262-279 | a visible character is in exactly one clause if it is outside the boundaries and in none otherwise |
| TemporalConflicts.AddTemporalConflicts | Mura_project/src/mura/claim_semantics.py:1129-1191 | the old conflicts, then one conflict for each disagreeing group without one, and an issue for each of its events; an exception exactly when such a group has a repeated or empty event id |
| TemporalConflicts.GroupsAreMembers | Mura_project/src/mura/claim_semantics.py:1133-1139 | the grouping dictionary holds for each key exactly its events, in order |
| TemporalConflicts.DisagreementCitedExactly | Mura_project/src/mura/claim_semantics.py:1144-1180 | two dated births or two dated deaths of the same participants whose dates differ in kind, value or bounds are both cited by one conflict afterwards if and only if the name of the events of that matter was free or an older conflict cites both |
| TemporalConflicts.EveryDisagreementIsKept | Mura_project/src/mura/claim_semantics.py:1144-1180 | they always leave a conflict named after all such events, which cites both if digests do not collide and older conflicts are named after what they cite |
| TemporalConflicts.AddedAreProperlyNamed | Mura_project/src/mura/claim_semantics.py:1158-1180 | which every conflict that a run adds is |
| TemporalConflicts.ForeignConflictHides | Mura_project/src/mura/claim_semantics.py:1161-1164 | in any list of events: if an older conflict has the name and none cites both, none does afterwards |
| TemporalConflicts.ForeignConflictRun | Mura_project/src/mura/claim_semantics.py:1161-1164 | such a run on two events |
| TemporalConflicts.EveryNewConflictIsReal | Mura_project/src/mura/claim_semantics.py:1144-1180 | every new conflict cites exactly the births, or the deaths, of one group of participants, in order, two of which differ in their dates; it has their evidence without repetition, is unreviewed and has a new name, the digest of their ids |
| TemporalConflicts.NewConflictsCiteOneMatter | Mura_project/src/mura/claim_semantics.py:1135-1142 | with unique event ids, an event is cited together with another exactly if both are dated, both are births or both deaths, and they have the same participants |
| TemporalConflicts.IssuesNameCitedEvents | Mura_project/src/mura/claim_semantics.py:1182-1190 | the issues name exactly the events that the new conflicts cite, in order |
| TemporalConflicts.RaisesExactly | Mura_project/src/mura/claim_semantics.py:1158-1180 | it raises exactly if the dates of a matter differ, its name is free, and its events repeat an id or have an empty one |
| TemporalConflicts.MembersAreAlike | Mura_project/src/mura/claim_semantics.py:1133-1139 | the events of one key are the dated births, or deaths, of the same participants |
| TemporalConflicts.SecondRunAddsNothing | Mura_project/src/mura/claim_semantics.py:1161-1164 | a second run adds no conflict and reports nothing |
| TemporalConflicts.ConflictIdsStayUnique | Mura_project/src/mura/claim_semantics.py:1158-1180 | without digest collisions conflict ids stay unique |
| VariableSizeIntegers.ReadVint | Mura_project/src/mura/audio_duration.py:182-196 | the two loops compute the specified value and width at any offset and never read outside the buffer |
| VariableSizeIntegers.ReadsExactlyEncodings | Mura_project/src/mura/audio_duration.py:182-196 | a value and width are returned if and only if the bytes at the offset are the encoding of that value in that width (section 4 of RFC 8794) |
| VariableSizeIntegers.RoundTrip | Mura_project/src/mura/audio_duration.py:182-196 | a number written anywhere in any width that holds it reads back |
| VariableSizeIntegers.NothingExactlyWhen | Mura_project/src/mura/audio_duration.py:183-192 | nothing is returned exactly past the end, for a first byte of 0, or when bytes are cut off |
| VariableSizeIntegers.Width | Mura_project/src/mura/audio_duration.py:185-190 | the width is one more than the leading zeros of the first byte, 9 exactly for 0 |
| OggPages.FindLastGranule | Mura_project/src/mura/audio_duration.py:149-162 | where the search ends it returns the granule position of the last valid page it sees, or -1; for pages that are not packed against each other, of the last valid page |
| OggPages.PassMeaning | Mura_project/src/mura/audio_duration.py:151-162 | one pass finds the last valid page it sees, for every buffer, unless it sees none and gets to a page at the very start |
| OggPages.SeenBefore | Mura_project/src/mura/audio_duration.py:152-162 | stepping back hides exactly the marker that ends where the next search ends, so a marker is seen unless a seen one starts four bytes after it |
| OggPages.HaltsExactly | Mura_project/src/mura/audio_duration.py:151-162 | for every buffer: the search ends if and only if one of its first two passes finds a valid page or does not get to a page at the very start |
| OggPages.EndsWithLastSeen | Mura_project/src/mura/audio_duration.py:151-162 | and then it ends with what the first of these passes finds |
| OggPages.NeverEnds | Mura_project/src/mura/audio_duration.py:151-162 | if both passes get back to the end, every turn leads to another turn |
| OggPages.ApartHaltsExactly | Mura_project/src/mura/audio_duration.py:151-162 | for pages not exactly four bytes apart the search ends if and only if the buffer does not start with a page or contains a valid one, and finds the last valid page |
| OggPages.ShortestEndless | Mura_project/src/mura/audio_duration.py:151-162 | five bytes on which the search never ends |
| OggPages.HiddenPageEndless | Mura_project/src/mura/audio_duration.py:151-162 | a buffer with a valid page on which the search never ends |
| OggPages.AdjacentMarkerHidesPage | Mura_project/src/mura/audio_duration.py:162 | a concrete buffer on which a valid page is missed because a marker follows it after four bytes |
| OggPages.GranuleRoundTrip | Mura_project/src/mura/audio_duration.py:157 | the unpacked granule position is the stored number (section 6 of RFC 3533) |
| OggPages.WrittenPageIsRead | Mura_project/src/mura/audio_duration.py:152-160 | a page with the capture pattern and a stored granule position is valid exactly if that position is neither zero nor all ones |

## Left out

- ClaimContract.Validate: does not model the rules about name variants and aliases (claim_model.py, lines 1406-1442), because the hardening of person names is a table of linguistic rules.
- BuildFailures.FailsExactly: counts no exceptions from name variants, which are not rebuilt.
- ContractAssembly.Materialize: does not model name variants, alias hardening, uncertainty, event dates and relationship state copied onto rebuilt claims; they carry the same evidence ids again.
- ContractAssembly.FilterLinks: the test that an antecedent is named in the source text is a parameter; it is a search over word lists.
- ContractAssembly.MaterializeClaims: evidence class inference (claim_model.py, lines 213-282) is a parameter; it is a table of linguistic rules.
- CostGuards.CostGuardService.ReserveBudget: does not model concurrent transactions that interleave between its three reads, or a commit during a reservation; the reads are one snapshot.
- TextUnits.SegmentUnits: the regular expression for clause switches is a parameter that yields increasing positions inside the stretch.
- CoreferenceAugmentation.Augment: does not count the changed relationships, which are those whose ids match an added link.
- CoreferenceContexts.BoundedContexts: name, anaphor, kinship and explicit-pair finders are parameters; they are lexicons.
- CoreferenceAugmentation.SecondRunAddsNoResolved: says nothing about ambiguous links, which may match on a second run because the first one widens the sources of relationships.
- ClaimMaterialization.LedgerBuilder.MaterializeItem: does not rebuild name variants, uncertainty, event dates or relationship state, which carry the same evidence ids again, nor the exceptions that name variants can raise.
- TemporalExpressions.ParseHasGoodShape: the regular expressions are not modelled; what they find is an input with the ranges their digits allow.
- Clauses.SplitClauses: the clause boundary expression is an input of ordered, disjoint, non-empty matches.
- TranscriptMerge.MergeParts: texts are word sequences; the joining blanks and the word normaliser are not modelled.
- TemporalExpressions.AboutADayBecomesExact: starts from what the regular expressions find, not from a text.
- WordTiming.Align: syllable counts are given as weights, the envelope is given as numbers, and the tolerance of 1e-9 is zero over exact reals.
- PanZoom.Canvas.ZoomAt: floating-point rounding is not modelled.
- OggPages.FindLastGranule: is given only for the buffers on which the search ends, because the source runs on forever on the others; the division by the sample rate and the header search for it are not modelled.
- Uncertainty markers, self-corrections and relationship state (claim_semantics.py): lookups over fixed patterns.
- Job leases, recording quotas, routes, database access, migrations and model calls: input and output.
- WAV and MP3 durations, the WebM element search around the integers: library calls and heuristics.
- Springs, recentering and pointer capture of the canvas: animation and browser calls; the factor of a wheel event is an input.
- SHA-256, Unicode case folding and the identifier sanitiser: uninterpreted functions.

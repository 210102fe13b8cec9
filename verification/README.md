# Joiny-Mnemonic: a verified model of its derived views

Joiny-Mnemonic keeps an append-only log of a project's events and derives everything else from it: prompt
packets, folded transcripts, extracted memory candidates and their scores, task closures that can be undone,
failure episodes, snapshots that are replayed, reduced tool output, hook settings, fused search results, a code
graph, and ledgers of finalised decisions. This project models those derivations and proves what they promise.

Each module follows one component. Where the component changes a store, a tally, an array or a settings file step
by step, the module has a class or a method with the same loop, proved equal to a specification function; the
properties are then lemmas about that function.

| module | component |
|---|---|
| `Basics`, `Text`, `Decimal` | what several modules share: options, ranges of indexes, sorting; strings, lines, words and number text as the Python code uses them |
| `Folding` | folding repeated bodies of a transcript into pointers |
| `Packet` | assembling a prompt packet under a token budget |
| `PrivateRegions` | removing nested private regions from text |
| `Evidence` | the Markdown zone map and locating a quoted piece of evidence |
| `Evaluation` | scoring an extractor, in both match modes, for all candidates and for the trusted ones |
| `Detection` | which tool event is evidence that a task is done |
| `Blocks` | list blocks: closing, re-adding, merging, reverting a line |
| `Settlement`, `Ledger` | candidates, receipts and blocks as a state machine, and the store that carries it out |
| `Episodes` | numbered failure episodes over an append-once log |
| `Transcript` | pairing tool outputs with their calls, and the last interaction groups |
| `Replay` | replaying events onto a snapshot; the lexical index and its reader |
| `HashCache` | project fingerprints through a stat cache |
| `Governor`, `GovernorRuns` | budget thresholds, decisions, and applying them behind receipts |
| `Csv`, `Views`, `JsonView` | reduced views of tool output |
| `Hooks` | installing and removing command hooks |
| `TemporalArm`, `Fusion` | coverage selection, rank fusion, boosts, the lineage walk |
| `Impact` | the code index, resolving calls and imports, and the reverse-impact traversal |
| `Finalization`, `FinalizationLedger`, `FinalizationStore` | tags in final messages and their ledgers |

## What is assumed

- A transaction is one atomic step: it happens as a whole or not at all. Receipts are append-once keys.
- The parts of a structured identifier (a candidate's kind, block, content and source; a governor receipt's policy,
  action and bucket) determine it; random identifiers and hashes are fresh or injective, or positions in a ledger.
- Regular expressions, tokenisers, renderers of one event, retrieval rankings and clocks are parameters.
- Case folding is that of ASCII letters; whitespace and line boundaries are those of Python's `str`.
- Ratios, scores and token estimates are exact reals and integers.

## Where the code differs from its own words

- `Governor.ValidatedLimitsCanRaise`, `Governor.LargeReserveRaises`: limits that `validate_limits` accepts can still
  make `thresholds` raise; `Governor.ThresholdsRaiseExactly` says when.
- `Csv.StringAndNumberPrintAlike`: a comment says that 1 and "1" stay distinguishable; they share a cell.
  `Csv.SameTextSameCells` says what the text does determine. The header is not quoted: it determines the columns as long
  as no name has a comma (`Csv.PlainHeadersAreInjective`), and `Csv.HeaderIsSharedExactly` says which column lists share
  theirs with another one.
- `Views.CollapseIsLosslessExactly`: collapsing repeats is lossless exactly when no line after the first has the form
  of a repeat marker, unless it repeats the line before it.
- `Hooks.EmptyForeignGroupIsLost`: installing twice is not installing once when a foreign group has an empty handler
  list; `Hooks.InstallTwiceExactly` says when it is. `Hooks.RemoveUndoesInstallExactly` does the same for removal.
- `Blocks.RevertRestoresExactly`, `Blocks.SeveralLinesRemain`: reverting an applied block change restores a list
  block only for a one-line proposal that no line of the block already said.
- `Settlement.SecondQuestionProposesFirst`: two questions for one block in one event share the request event, so
  settling the second proposes the first one's text. `Settlement.ProposesOwnTextExactly` says, over every run, that a
  candidate proposes its own text exactly when it was asked first.
- `Episodes.LostExactlyWhenDependent`: while a target is open whose base key extends another one's by `#`, the other
  one's failure is taken for a repeat of it and leaves no entry; `Episodes.RecoveredNeighbourHides`: the same can happen
  when nothing is open any more. `Episodes.NumberedInEveryRunExactly` says for which targets the numbering always holds;
  generated ids hold no `#`, and then it does.
- `Replay.LookupIsExactUnlessIndexIsEmpty`: an empty lexical index is read as a missing one.
- `Detection.DottedNamesNeverMatch`: stripping leading dots and slashes means that a task that names `./.env` or
  `.eslintrc.json` never has that file as evidence, in whatever directory; `Detection.PathMatchesItselfExactly` says
  which paths match themselves.
- `Fusion.NeighboursCanFlip`: boosts are described as nudging and never flipping; neighbours in one arm can flip.
  `Fusion.BoostsPreserveOrderExactly` gives the exact distance at which they cannot.
- `Folding.QuotedPointerIsNotRecovered`: a body that quotes the pointer of an earlier event is unfolded into that event.
  `Folding.BodyIsRecoveredExactly`: over earlier bodies of plain text that is the only way to lose one.
- `FinalizationLedger.ContentsCanCoincide`: one status per text holds on the tag's text, not on the stored content: one
  trusted message can leave a confirmed and a rejected record with the same content.
  `FinalizationLedger.ContentsCoincideExactly` says when two contents coincide.
- `HashCache.MovedAndLinkedBack`: a comment (src/joiny_mnemonic/snapshots.py:153-154) says that paths that escape or
  are linked out never hit the cache. A cached file that is moved out of the project and linked back does;
  `HashCache.CachedHashIsRightExactly` says when an answer from the cache is right.
- `Replay.ReplayComposesExactly`: a snapshot forgets the calls before its last 32 groups. A later output for a named
  call that still waited joins another open call instead, or none; when no such call was left behind, replaying any tail
  is replaying the whole log.
- `Packet.OversizedWithoutSubadditivity`: the closing assertion of `assemble` is unreachable for a subadditive
  counter; that longer text costs at least as much is not enough.

## Model

| member | source | states |
|---|---|---|
| Text.SpacesAre | src/joiny_mnemonic/reconciler.py:92-93 | Whitespace is the twenty-nine characters that Python strips and splits at. |
| Text.BreaksAre | src/joiny_mnemonic/reconciler.py:96-98 | Lines end at the ten characters at which Python splits lines. |
| Text.LineLengthExactly | src/joiny_mnemonic/extraction.py:158-159 | A line ends after its first boundary, a carriage return with its line feed being one. |
| Text.FoldExactly | src/joiny_mnemonic/reconciler.py:92-93 | Folding makes the capital letters of ASCII small and leaves everything else. |
| Text.RemovePrefixExactly | src/joiny_mnemonic/reconciler.py:344-353 | A prefix goes and the rest stays, be it empty; without the prefix nothing changes. |
| Text.ContainsExactly | src/joiny_mnemonic/prompt.py:113-118 | A needle is contained exactly when it stands somewhere. |
| Text.Utf8LengthExactly | src/joiny_mnemonic/prompt.py:25 | A character takes one to four bytes, by the ranges of section 3 of RFC 3629. |
| Text.Utf8BytesAdd | src/joiny_mnemonic/prompt.py:25 | The bytes of a text are those of its characters together. |
| Folding.FoldAgainst | src/joiny_mnemonic/prompt.py:113-118 | The folding loop replaces every occurrence of each long earlier body by its pointer, oldest body first. |
| Folding.RenderTranscript | src/joiny_mnemonic/prompt.py:102-127 | The transcript is the framed events joined, each folded against all bodies rendered before it. |
| Folding.EventBodyExactly | src/joiny_mnemonic/prompt.py:70-89 | A tool output shows its compact view exactly when it has one and none of its files is active; everything else is shown verbatim, and the representation says which. |
| Folding.FrameWords | src/joiny_mnemonic/prompt.py:91-100 | The frame names id, order, kind, role (or none), files if any, and representation, and closes after the content. |
| Folding.FoldedExactly | src/joiny_mnemonic/prompt.py:102-127 | Over earlier bodies of plain text an event is marked as folded exactly when its text repeats the whole text, 240 characters or more, of an earlier one. |
| Folding.ReplaceUndone | src/joiny_mnemonic/prompt.py:113-118 | Replacing a body by a pointer that is not in the text, and the pointer by the body, gives the text back, overlapping occurrences included. |
| Folding.ReplaceUndoneExactly | src/joiny_mnemonic/prompt.py:113-118 | For a body of plain text that is the only case: the replacement is undone if and only if the pointer was not in the text. |
| Folding.FoldingIsLossless | src/joiny_mnemonic/prompt.py:102-127 | With distinct bracket-free ids, and no body that quotes the pointer of an earlier event, a reader of the folded texts recovers every body. |
| Folding.BodyIsRecoveredExactly | src/joiny_mnemonic/prompt.py:113-118 | Over earlier bodies of plain text a folded body is recovered if and only if it quotes none of their pointers. |
| Folding.FoldingIsLosslessExactly | src/joiny_mnemonic/prompt.py:102-127 | A whole transcript, plain up to its last body, is recovered if and only if that body quotes no pointer of the others. |
| Folding.QuotedPointerIsNotRecovered | src/joiny_mnemonic/prompt.py:113-118 | A concrete loss: two events, the second quoting the first's pointer. |
| Folding.RenderIsPrefixMonotone | src/joiny_mnemonic/prompt.py:102-127 | The rendering of the first k events is a prefix of the rendering of all. |
| Packet.EstimateIsSubadditive | src/joiny_mnemonic/prompt.py:21-27 | The default token estimate of a concatenation is at most the sum of the estimates. |
| Packet.EstimateExactly | src/joiny_mnemonic/prompt.py:21-27 | The estimate is the least number of tokens that covers a third of the bytes and 1.35 for each word, at least one for any text. |
| Packet.BudgetSafety | src/joiny_mnemonic/prompt.py:304-510 | For every request and subadditive counter, the outcome is the invalid-budget error, the active-memory error, or a packet within budget that starts with the active memory, each exactly under its own condition. |
| Packet.OversizedExactly | src/joiny_mnemonic/prompt.py:304-506 | For any counter, the oversized assertion fires exactly when body and restatement together cost more than the budget. |
| Packet.NeverOversized | src/joiny_mnemonic/prompt.py:503-506 | For a subadditive counter the oversized assertion is unreachable. |
| Packet.OversizedWithoutSubadditivity | src/joiny_mnemonic/prompt.py:503-506 | A counter that merely grows with length makes the assertion fire on a concrete request. |
| Packet.DefaultPacketIsWithinBudget | src/joiny_mnemonic/prompt.py:21-27 | With the default estimate a packet is produced exactly when active memory fits, and it is within budget. |
| Packet.TranscriptLeavesReserve | src/joiny_mnemonic/prompt.py:323-384 | The transcript stage never uses the retrieval reserve, and the four budgets are in order. |
| Packet.ReserveIs | src/joiny_mnemonic/prompt.py:318-335 | Active memory and the kept restatement make up what is left of the budget; of that nothing is set aside without a query or limit, and otherwise a third of the room beside active memory, up to 400. |
| Packet.NoQueryNoReserve | src/joiny_mnemonic/prompt.py:330-387 | Without a query or limit the next older group would not fit the whole effective budget. |
| Packet.ReserveIsForHits | src/joiny_mnemonic/prompt.py:330-433 | With a query and a subadditive counter, hits that cost no more than 400 and a third of the room are always kept, whatever the transcript holds. |
| Packet.ChoicesAreMaximal | src/joiny_mnemonic/prompt.py:362-433 | The chosen groups are a suffix, every shorter choice fits, the next longer one does not; hits likewise, none without a query. |
| Packet.RestatedOnlyAfterData | src/joiny_mnemonic/prompt.py:495-502 | The restatement is considered exactly when a transcript or a retrieved hit was kept. |
| Packet.PacketExactly | src/joiny_mnemonic/prompt.py:226-519 | The text of a packet is active memory, then transcript, retrieved memory, index and restatement, each present exactly under its own condition; the ids are those of the events and hits shown. |
| Packet.HeadExactly | src/joiny_mnemonic/prompt.py:246-283 | The packet begins with its preface, the staleness warning if there is a reason, and active memory: the instructions and the blocks, verbatim. |
| Packet.BlocksInOrder | src/joiny_mnemonic/prompt.py:262-283 | Active memory and the restatement show those of the five blocks that there are, in the fixed order and no others, with version, number of sources and latest source. |
| Packet.TranscriptExactly | src/joiny_mnemonic/prompt.py:380-387 | The transcript shows the events of the chosen groups, each once, oldest first. |
| Basics.FlattenAppend | src/joiny_mnemonic/prompt.py:380-382 | The events of several groups are those of each in turn. |
| Packet.RetrievedExactly | src/joiny_mnemonic/prompt.py:405-433 | Retrieved memory is its title and the texts of the kept hits in order. |
| Packet.DigestExactly | src/joiny_mnemonic/prompt.py:311-322 | The restatement is its title and the blocks; there is none without a block. |
| Packet.BulletsExactly | src/joiny_mnemonic/prompt.py:254-258 | The staleness warning has a line for each reason. |
| Packet.IndexHeaderExactly | src/joiny_mnemonic/prompt.py:457-461 | The index has its title, and the hint how to expand a line exactly when that fits. |
| Packet.IndexLineWords | src/joiny_mnemonic/prompt.py:486-490 | A line of the index, with its files or a dash. |
| Packet.IndexLinesExactly | src/joiny_mnemonic/prompt.py:457-493 | The index lists exactly the items that are not shown, not excluded and not low in information. |
| Packet.IndexLinesSplit | src/joiny_mnemonic/prompt.py:479-493 | The lines of the index are in the order of the timeline. |
| Packet.ChooseGroups | src/joiny_mnemonic/prompt.py:362-384 | The newest-first loop keeps exactly the longest run of newest groups that fits step by step. |
| Packet.ChooseHits | src/joiny_mnemonic/prompt.py:405-433 | The retrieval loop keeps exactly the longest prefix of hits that fits step by step. |
| Packet.ChooseLines | src/joiny_mnemonic/prompt.py:457-493 | The timeline loop lists eligible items in order up to the first line that does not fit. |
| Packet.Assemble | src/joiny_mnemonic/prompt.py:226-519 | The assembler's stages in their order give exactly the specified outcome. |
| PrivateRegions.PrivateTagAt | src/joiny_mnemonic/security.py:52-83 | The tag scanner recognises exactly the tag that the grammar has at that place, with its length. |
| PrivateRegions.OpensExactly | src/joiny_mnemonic/security.py:52-83 | A text starts with an opening tag exactly when it starts with the name, in any case, followed by nothing, whitespace or a closing bracket. |
| PrivateRegions.ClosesExactly | src/joiny_mnemonic/security.py:52-71 | A closing tag is exactly the name, whitespace and a closing bracket, and has that length. |
| PrivateRegions.OpeningTagEnds | src/joiny_mnemonic/security.py:73-83 | An opening tag ends at the first closing bracket that stands in no quotes, or runs to the end. |
| PrivateRegions.ParseKeepsText | src/joiny_mnemonic/security.py:85-112 | The recursive grammar of nested regions loses and invents no character. |
| PrivateRegions.OnlyLastRegionIsUnclosed | src/joiny_mnemonic/security.py:96-112 | Only the last outermost region can be unclosed, and it runs to the end. |
| PrivateRegions.SkipRegion | src/joiny_mnemonic/security.py:96-108 | The depth-counting inner loop stops exactly where the recursive region ends and counts the regions inside it. |
| PrivateRegions.RemovePrivateRegions | src/joiny_mnemonic/security.py:85-112 | The output is the text outside, with one marker per outermost region; the count is that of all regions, nested ones included. |
| PrivateRegions.RemovalIsIdempotent | src/joiny_mnemonic/security.py:85-112 | A second pass returns the same text and counts nothing. |
| Evidence.OneZonePerCharacter | src/joiny_mnemonic/extraction.py:152-197 | The zone map has one zone per character. |
| Evidence.ZonesSplit | src/joiny_mnemonic/extraction.py:152-197 | At a line boundary the text before matters only through the fence it leaves open. |
| Evidence.ZonesAreLocal | src/joiny_mnemonic/extraction.py:152-197 | Outside a fence, the map of a + b is the map of a followed by the map of b. |
| Evidence.ZoneExactly | src/joiny_mnemonic/extraction.py:152-197 | A character is fenced code exactly on a fence marker or between one and what closes it, a quote exactly on another line that starts with a bracket, and else what the backticks of its line say. |
| Evidence.FenceExactly | src/joiny_mnemonic/extraction.py:152-180 | A fence is in force exactly from a marker that found none to the next one with the same mark and at least its width. |
| Evidence.MarkerExactly | src/joiny_mnemonic/extraction.py:160-162 | A marker is three or more backticks, or tildes, after spaces and tabs. |
| Evidence.TicksAreBackticks | src/joiny_mnemonic/extraction.py:187-190 | A run of backticks is that many of them in a row. |
| Evidence.InlineCodeIsASpan | src/joiny_mnemonic/extraction.py:181-195 | A character is marked as inline code only inside a span between equal runs of backticks with no such run in between. |
| Evidence.ProseTicksAreUnclosed | src/joiny_mnemonic/extraction.py:181-195 | A backtick left as prose belongs to a run that nothing later on the line closes. |
| Evidence.ZoneMap | src/joiny_mnemonic/extraction.py:152-197 | The array loop writes exactly the specified zones. |
| Evidence.LocateOutcome | src/joiny_mnemonic/extraction.py:200-214 | Empty, missing and ambiguous evidence are reported exactly for an empty quote, no occurrence, and two occurrences that share no character. |
| Evidence.LocatedSpan | src/joiny_mnemonic/extraction.py:200-214 | The reported span is exactly the quote, and every other occurrence starts strictly inside it. |
| Evidence.LocatedZone | src/joiny_mnemonic/extraction.py:200-214 | A zone other than fenced code is reported exactly when every character of the span is in it. |
| Evidence.AutoIsUnambiguousProse | src/joiny_mnemonic/extraction.py:261-293 | A candidate skips review exactly when its quote is found once, is prose, is not rejected by a verifier and is confident enough. |
| Evidence.RuleExactly | src/joiny_mnemonic/extraction.py:261-293 | The recorded rule is the first reason that applies: zone, verifier, confidence; a candidate whose evidence is not located is refused with the reason. |
| Evaluation.FewerPredictions | src/joiny_mnemonic/extraction_evaluation.py:99-142 | The exchange argument: fewer predictions over more golds leave more golds and raise no extra false alarm. |
| Evaluation.MatchExactly | src/joiny_mnemonic/extraction_evaluation.py:109-121 | A prediction matches a gold of its type exactly when they share at least half the positions of one of the two spans, both not empty. |
| Evaluation.LocatedGoldsExactly | src/joiny_mnemonic/extraction_evaluation.py:99-108 | Exactly the golds whose quote is located take part, each at the place of that quote. |
| Evaluation.LocatedGoldsSplit | src/joiny_mnemonic/extraction_evaluation.py:99-108 | Golds take part in the order of the example. |
| Evaluation.SpanCountsAddUp | src/joiny_mnemonic/extraction_evaluation.py:99-142 | In span mode tp + fp is the number of predictions and tp + fn that of locatable golds, in every row. |
| Evaluation.SpanCountsAreMonotone | src/joiny_mnemonic/extraction_evaluation.py:99-142 | For any subsequence of the predictions tp and fp are no higher and fn no lower, in every row. |
| Evaluation.ExactCountsAddUp | src/joiny_mnemonic/extraction_evaluation.py:68-98 | In exact mode tp + fn is the number of distinct golds and tp + fp that of distinct predictions. |
| Evaluation.ExactCountsAreMonotone | src/joiny_mnemonic/extraction_evaluation.py:68-98 | The same monotonicity in exact mode. |
| Evaluation.ZoneRowsAddUp | src/joiny_mnemonic/extraction_evaluation.py:68-142 | In both modes the rows of the four zones add up to the overall row. |
| Evaluation.TrustedPassIsMonotone | src/joiny_mnemonic/extraction_evaluation.py:275-303 | Over any corpus the trusted pass is no better in any row, and false trust is part of its false positives. |
| Evaluation.TrustedAreAuto | src/joiny_mnemonic/extraction_evaluation.py:303-306 | The trusted pass scores exactly the automatic candidates, each as often as it was predicted. |
| Evaluation.AutoPassIsWhole | src/joiny_mnemonic/extraction_evaluation.py:275-311 | When every candidate is automatic both passes count the same. |
| Evaluation.QuarantinedPassIsSilent | src/joiny_mnemonic/extraction_evaluation.py:275-311 | When every candidate is held back the trusted pass counts like an extractor that proposes nothing. |
| Evaluation.FalselyTrustedIs | src/joiny_mnemonic/extraction_evaluation.py:298-312 | The false-trust counter is the false positives of the trusted pass over the adversarial examples alone. |
| Evaluation.PredictionsExactly | src/joiny_mnemonic/extraction_evaluation.py:229-266 | Exactly the proposals that validate are predictions, with their own type, text and quote and the place, zone and status they got. |
| Evaluation.PredictionsSplit | src/joiny_mnemonic/extraction_evaluation.py:225-266 | Predictions are in the order of the proposals, at most one for each. |
| Evaluation.RecallIsMonotone | src/joiny_mnemonic/extraction_evaluation.py:35-46 | Withholding candidates never raises the reported recall. |
| Evaluation.AccumulateSpans | src/joiny_mnemonic/extraction_evaluation.py:99-142 | The loop that consumes golds first-come adds exactly the specified counts to every row. |
| Evaluation.AccumulateExact | src/joiny_mnemonic/extraction_evaluation.py:68-98 | The set arithmetic of exact mode adds exactly the specified counts to every row. |
| Evaluation.EvaluateExtractor | src/joiny_mnemonic/extraction_evaluation.py:188-303 | Both tallies are the sums over the corpus, and the false-trust counters are those of the trusted pass. |
| Detection.PathMatchesBySegments | src/joiny_mnemonic/reconciler.py:107-115 | A named path matches a file exactly when its segments are the last segments of the file's. |
| Detection.PathMatchesItselfExactly | src/joiny_mnemonic/reconciler.py:107-115 | A path matches itself exactly when the dots and slashes taken off its front end at a segment. |
| Detection.DottedNamesNeverMatch | src/joiny_mnemonic/reconciler.py:107-115 | A path with a leading dot matches no file whose last segments are the dotted name, wherever the file lies. |
| Detection.DotfileInDirectory | src/joiny_mnemonic/reconciler.py:107-115 | A dotfile in any directory is such a file, named with or without ./ in front. |
| Detection.CommandMatchesByWords | src/joiny_mnemonic/reconciler.py:74-80 | A quoted command matches exactly when its words are the first words of the command that ran. |
| Detection.DetectionIsJustified | src/joiny_mnemonic/reconciler.py:174-237 | A task is reported exactly when it is no deletion, its admission is known and some later successful event supports it; the earliest one is reported. |
| Detection.ShowsExactly | src/joiny_mnemonic/reconciler.py:198-224 | An event shows nothing before the admission or after a failure; otherwise the first path that it wrote, and only if it wrote none the first command that it ran. |
| Detection.DetectedSplit | src/joiny_mnemonic/reconciler.py:174-237 | Reports come in the order of the tasks, at most one for each. |
| Detection.SlashedExactly | src/joiny_mnemonic/reconciler.py:107-111 | Paths are compared with every backslash turned into a slash and nothing else changed. |
| Detection.DetectCompletions | src/joiny_mnemonic/reconciler.py:174-237 | The scan, reading only events after the earliest admission, reports exactly those. |
| Blocks.RowsAreLines | src/joiny_mnemonic/reconciler.py:96-104 | Splitting into lines and dropping blank ones is the same as reading the text character by character. |
| Blocks.ApplyThenUndo | src/joiny_mnemonic/reconciler.py:344-353 | Closing and re-adding an entry restores the set of open tasks and keeps every other line and its order. |
| Blocks.MergedExactly | src/joiny_mnemonic/consolidation.py:157-170 | A replacement is the content; a merge leaves a block that says the content already, whatever its case, and else adds one bullet at its end. |
| Blocks.UndoTwice | src/joiny_mnemonic/reconciler.py:479-491 | A second re-adding adds no second copy, and the entry is there after the first. |
| Blocks.RevertRestoresExactly | src/joiny_mnemonic/settlement.py:283-291 | Apply and revert restore the items of a list block exactly when the proposal is one line that no line of the block already said. |
| Blocks.SeveralLinesRemain | src/joiny_mnemonic/settlement.py:283-291 | A proposal of several lines is never fully removed. |
| Settlement.RunKeeps | src/joiny_mnemonic/settlement.py:65-149 | Over every run the receipts agree with the histories, each history follows the flow, and ledger, events and receipts only grow. |
| Settlement.ConsumeOnce | src/joiny_mnemonic/reconciler.py:264-326 | In any interleaving a candidate is applied at most once, its history is a chain of allowed transitions, and after a revert or a contest it never changes again. |
| Settlement.SettleTwice | src/joiny_mnemonic/settlement.py:86-99 | Repeating a settlement that went through changes nothing. |
| Settlement.RepeatedUndoExactly | src/joiny_mnemonic/reconciler.py:436-514 | Undoing a reverted closure again changes nothing exactly when the entry is still in the block. |
| Settlement.UndoIsIdempotent | src/joiny_mnemonic/reconciler.py:436-514 | Right after an undo a second one changes nothing. |
| Settlement.ReconcileTwice | src/joiny_mnemonic/reconciler.py:264-326 | Reconciling again on the same detections changes nothing. |
| Settlement.DetectionClosesExactly | src/joiny_mnemonic/reconciler.py:254-318 | For a candidate nobody has settled, a detection closes its task exactly when the entry is open and the evidence is strong, or medium under the flag; otherwise the candidate stays pending. |
| Settlement.ReconcileFollowsPolicy | src/joiny_mnemonic/reconciler.py:254-326 | Over a whole reconciliation, what was applied had such evidence and an open task, what had such evidence is closed, and weak evidence changes no block. |
| Settlement.InvalidateExactly | src/joiny_mnemonic/reconciler.py:584-640 | Evidence that is gone takes back exactly an applied closure: reverted, and its entry open again. |
| Settlement.ContestExactly | src/joiny_mnemonic/reconciler.py:516-537 | Re-adding an entry contests exactly its applied closures, compared without case and spacing, and nothing else. |
| Settlement.MarkExactly | src/joiny_mnemonic/consolidation.py:239-308 | A marker replaces the goal or the instructions and is merged into any other block; only a change of the open tasks touches candidates. |
| Settlement.SettleExactly | src/joiny_mnemonic/settlement.py:65-149 | The manual verbs refuse in a fixed order; what they let through ends at the status asked for, recorded for the one who asked. |
| Settlement.FinalDetectionIsInert | src/joiny_mnemonic/reconciler.py:329-405 | After an undo or a contest, at any later point of any run, the same detection changes nothing: the entry stays open. |
| Settlement.ClosureUndone | src/joiny_mnemonic/reconciler.py:329-380 | After an automatic closure, the undo goes through and restores the open tasks and all other lines. |
| Settlement.ReplaceRevertIsLossless | src/joiny_mnemonic/settlement.py:215-296 | Reverting a change of a replace-mode block brings back its earlier text whatever happened in between. |
| Settlement.ListRevertRestoresExactly | src/joiny_mnemonic/settlement.py:215-296 | Through the whole apply and revert a list block is restored exactly under the condition of the block lemma. |
| Settlement.SecondQuestionProposesFirst | src/joiny_mnemonic/consolidation.py:239-308 | Two questions for one block in one event: the second's settlement proposes the first's text. |
| Settlement.ProposesOwnTextExactly | src/joiny_mnemonic/settlement.py:215-263 | Over every run a candidate proposes its own text if and only if that text was the first one asked about that block in that event. |
| Ledger.Store.Transit | src/joiny_mnemonic/storage.py:4307-4371 | A status change does what the flow allows, or reports why not and leaves the store as it was. |
| Ledger.Store.CloseTask | src/joiny_mnemonic/reconciler.py:329-405 | Closing a task is the specified step, or nothing. |
| Ledger.Store.UndoTask | src/joiny_mnemonic/reconciler.py:436-514 | Undoing a closure is the specified step, or nothing. |
| Ledger.Store.ContestReasserted | src/joiny_mnemonic/reconciler.py:516-537 | Re-adding a closed entry contests exactly its applied closures. |
| Ledger.Store.RunReconciler | src/joiny_mnemonic/reconciler.py:264-326 | The reconciliation loop is the specified fold over invalidations and detections. |
| Ledger.Store.ApplyChange | src/joiny_mnemonic/settlement.py:215-263 | Applying a block change is the specified step, or nothing. |
| Ledger.Store.RevertChange | src/joiny_mnemonic/settlement.py:264-296 | Reverting a block change is the specified step, or nothing. |
| Ledger.Store.SettleManually | src/joiny_mnemonic/settlement.py:65-149 | The manual settlement verb is the specified step with all its refusals, or nothing. |
| Episodes.NextKeyIsFresh | src/joiny_mnemonic/projection_failures.py:24-43 | A new episode's key was never used in the log. |
| Episodes.RecordOutcome | src/joiny_mnemonic/projection_failures.py:45-80 | Recording joins the open episode without a new entry, or opens the next number. |
| Episodes.LastOpenIsJoined | src/joiny_mnemonic/projection_failures.py:38-41 | Of several open keys a failure joins the one opened last. |
| Episodes.RunKeeps | src/joiny_mnemonic/projection_failures.py:24-118 | In every reachable state each target's failure keys are base, base#2, ... in order, all but possibly the last recovered, receipts agree with the log and keys are distinct. |
| Episodes.BasesDiffer | src/joiny_mnemonic/projection_failures.py:20-22 | Different targets have different base keys as long as system and kind hold no colon. |
| Episodes.MessagesAreKeptOnce | src/joiny_mnemonic/projection_failures.py:78-80 | Every failure leaves its message once, after the earlier ones. |
| Episodes.NumberedInEveryRunExactly | src/joiny_mnemonic/projection_failures.py:24-43 | Every run of a set of targets keeps that numbering if and only if no base key extends another one by the number sign. |
| Episodes.NoEntryExactly | src/joiny_mnemonic/projection_failures.py:24-80 | After any run of any targets, a failure adds no entry exactly when a failure under its base is still open or the next number is taken by a target that extends it. |
| Episodes.RetryLeavesExactlyTheFailed | src/joiny_mnemonic/projection_failures.py:184-200 | After a retry exactly the items whose attempt failed are pending, in their order. |
| Episodes.NothingPendingMeansAllClosed | src/joiny_mnemonic/projection_failures.py:101-118 | When nothing is pending no target has an open episode. |
| Episodes.LostExactlyWhenDependent | src/joiny_mnemonic/projection_failures.py:24-43 | While one target's first episode is open, another's failure adds no entry exactly when the open one's base is the other's or extends it by the number sign. |
| Episodes.RecoveredNeighbourHides | src/joiny_mnemonic/projection_failures.py:24-43 | With nothing open at all, the first failure of x adds no entry once x#2 failed and recovered. |
| Episodes.FailureManager.RetryPending | src/joiny_mnemonic/projection_failures.py:184-200 | Every listed failure is attempted once, and pending = recovered + failed. |
| Transcript.GroupInteractions | src/joiny_mnemonic/transcript.py:22-79 | The pairing loop with its tables, the union-find links and the gathering under roots give exactly the specified groups. |
| Transcript.JoinedExactly | src/joiny_mnemonic/transcript.py:48-70 | An output joins the newest open call of its name, and where none has it the newest open call. |
| Transcript.ShownKinds | src/joiny_mnemonic/transcript.py:9 | A transcript shows messages, tool calls, tool outputs and artifacts. |
| Transcript.RecentComplete | src/joiny_mnemonic/transcript.py:82-86 | The events of the last groups, in the order of the log. |
| Transcript.RecentIsComplete | src/joiny_mnemonic/transcript.py:82-86 | Grouping what is carried along gives exactly the last groups of the whole log, no event lost or doubled: no output without its call. |
| Transcript.RecentGoesOnExactly | src/joiny_mnemonic/transcript.py:22-86 | Going on from what was carried along equals going on from the whole log, for every continuation, if and only if no call left behind still waits under a name. |
| Transcript.LongCallIsLeftBehind | src/joiny_mnemonic/transcript.py:82-86 | It happens: a named call during which as many other messages come in as groups are carried along. |
| Replay.ReplayComposes | src/joiny_mnemonic/snapshots.py:310-404 | Beside the recent events, replaying xs and then ys gives the same state, lexical index included, as replaying xs + ys. |
| Replay.ReplayComposesExactly | src/joiny_mnemonic/snapshots.py:310-404 | Recent events included, it does so for every ys if and only if no call that the trimming left behind still waits for an output under its name. |
| Replay.ReplayKeepsCoherence | src/joiny_mnemonic/snapshots.py:354-376 | After a replay the index describes exactly the memories. |
| Replay.LastEventDecides | src/joiny_mnemonic/snapshots.py:354-376 | A memory is live after a replay exactly as the last event that wrote or superseded it says. |
| Replay.TouchExactly | src/joiny_mnemonic/snapshots.py:354-364 | Only a derivation of the state touches a memory: it removes the one it supersedes and writes its own. |
| Replay.LastWriteDecides | src/joiny_mnemonic/snapshots.py:340-353 | After a replay a block is what the last event that writes it says, with its version, and supersedes what the write before left. |
| Replay.TimelineIsLog | src/joiny_mnemonic/snapshots.py:329-337 | The timeline holds every replayed event as its last occurrence says. |
| Replay.PreviewExactly | src/joiny_mnemonic/snapshots.py:329-337 | A preview is the words of the content single-spaced, at most 160 characters of them. |
| Replay.UpsertedExactly | src/joiny_mnemonic/snapshots.py:338-341 | A transcript event that was carried already takes the place of its earlier version; a new one goes to the end. |
| Replay.MemoryExactly | src/joiny_mnemonic/snapshots.py:354-376 | A memory is what its derivation event says, and where that says nothing the event's own id, branch and time, and version one. |
| Replay.VersionsCountUpdates | src/joiny_mnemonic/snapshots.py:340-353 | A block's version counts its updates. |
| Replay.LookupIsExact | src/joiny_mnemonic/prompt.py:195-224 | Through a rebuilt non-empty index a query finds exactly the memories whose text shares a term with it. |
| Replay.MemoryTextWords | src/joiny_mnemonic/snapshots.py:395-400 | A memory is found by its summary, its content and its files. |
| Replay.CandidatesAreMemories | src/joiny_mnemonic/prompt.py:195-224 | Without a query all memories are considered, and with one never anything but memories. |
| Replay.LookupIsExactUnlessIndexIsEmpty | src/joiny_mnemonic/prompt.py:199-209 | For a non-empty query the lookup is exact if and only if the index is not empty or there are no memories. |
| Replay.ReplayEvents | src/joiny_mnemonic/snapshots.py:310-404 | The event loop, the trimming of the recent events and the rebuilding of the index give the specified state. |
| HashCache.CachedFingerprintIsExact | src/joiny_mnemonic/snapshots.py:118-182 | As long as no canonical file changes, or leaves the project, under the same size and time, a cached fingerprint is the uncached one, at any point of any history. |
| HashCache.CachedHashIsRightExactly | src/joiny_mnemonic/snapshots.py:145-182 | For any path, inside or leading outside, the cached answer is right exactly when the cache misses or the path leads inside to the file of that name with that content. |
| HashCache.PlainExactly | src/joiny_mnemonic/snapshots.py:145-152 | The cache is asked exactly for relative paths without a parent segment. |
| HashCache.MovedAndLinkedBack | src/joiny_mnemonic/snapshots.py:145-165 | A cached file moved out of the project and linked back is still answered from the cache, where an uncached fingerprint skips it. |
| HashCache.Cache.Flush | src/joiny_mnemonic/snapshots.py:112-115 | After a flush the store holds exactly what the cache holds, and nothing is left to write. |
| HashCache.FingerprintProject | src/joiny_mnemonic/snapshots.py:144-182 | The loop gives the specified hashes and entries. |
| Governor.ThresholdsAreOrdered | src/joiny_mnemonic/governor.py:43-68 | Returned thresholds satisfy 1 <= snapshot < compact < handoff < hard <= window - reserve. |
| Governor.ThresholdsRaiseExactly | src/joiny_mnemonic/governor.py:43-68 | Validated limits are refused exactly when the snapshot level plus two or the compact level plus one reaches the hard threshold. |
| Governor.ThresholdsExactly | src/joiny_mnemonic/governor.py:43-68 | Each returned threshold: the shares of the window rounded up, snapshot and compaction scaled as the cap scales the handoff, each at least one above the one before, the hard limit sparing the reserve. |
| Governor.AcceptedExactly | src/joiny_mnemonic/context_limits.py:114-132 | Limits are accepted exactly when cap and counts are in range, the ratios increase up to one, and the handoff stays below the hard limit. |
| Governor.HandoffIsLiftedByTwo | src/joiny_mnemonic/governor.py:46-62 | When the compact level fits the physical handoff, rounding lifts the handoff by at most two, and a hard threshold three above never raises. |
| Governor.LiftOfTwoHappens | src/joiny_mnemonic/governor.py:46-62 | The bound of two is met. |
| Governor.ValidatedLimitsCanRaise | src/joiny_mnemonic/context_limits.py:114-132 | Concrete validated limits that are refused. |
| Governor.LargeReserveRaises | src/joiny_mnemonic/context_limits.py:114-132 | Without the hypothesis on the compact level no distance suffices. |
| Governor.Decide | src/joiny_mnemonic/governor.py:70-106 | The decision is a prefix of the four actions holding exactly those whose threshold is reached. |
| Governor.ReachingIsEnough | src/joiny_mnemonic/governor.py:90-97 | Reaching a threshold is enough for its action, one token less is not. |
| Governor.DecisionGrows | src/joiny_mnemonic/governor.py:90-97 | More context only adds actions at the end. |
| GovernorRuns.RunKeeps | src/joiny_mnemonic/governor.py:149-229 | Over every run no receipt is written twice, applications of one action keep their distance, and nothing is compacted before a snapshot exists. |
| GovernorRuns.ApplicationsAreApart | src/joiny_mnemonic/governor.py:175-179 | Any two applications of one action and policy are at least the interval apart. |
| GovernorRuns.EvaluationTakesOneSnapshot | src/joiny_mnemonic/governor.py:169-217 | One evaluation takes at most one snapshot. |
| GovernorRuns.EvaluateTwice | src/joiny_mnemonic/governor.py:149-229 | Evaluating the same decision again does nothing unless the replay tail has become due. |
| GovernorRuns.AppliedExactly | src/joiny_mnemonic/governor.py:172-216 | Of the actions decided on exactly those are applied, in order, that are no undue snapshot, are not too close to the last row of their kind, and have no receipt in the bucket. |
| GovernorRuns.RowsExactly | src/joiny_mnemonic/governor.py:180-213 | One row for each action applied, naming policy, action, bucket and the event if there is one. |
| GovernorRuns.EffectsExactly | src/joiny_mnemonic/governor.py:206-216 | An applied snapshot takes one; an applied compaction compacts, after a snapshot of its own when none was just taken and the tail is due or there is none; the handoffs do nothing further. |
| GovernorRuns.BucketIs | src/joiny_mnemonic/governor.py:181-185 | A bucket spans a twentieth of the window, rounded up, and at least one token. |
| GovernorRuns.Ledger.EvaluateAndApply | src/joiny_mnemonic/governor.py:172-219 | The loop over the actions leaves exactly the specified rows, effects and applied list. |
| Csv.GridRoundTrip | src/joiny_mnemonic/reducers.py:318-339 | A reader with the quoting rules of section 2 of RFC 4180 recovers every grid of cell texts from its rendering. |
| Csv.SameTextSameCells | src/joiny_mnemonic/reducers.py:318-339 | Two tables under one header print alike exactly when all their cell texts agree. |
| Csv.StringAndNumberPrintAlike | src/joiny_mnemonic/reducers.py:330-334 | The string "1" and the number 1 share a cell. |
| Csv.HeadersPrintAlike | src/joiny_mnemonic/reducers.py:320 | One column named a,b and two columns a and b have the same header. |
| Csv.PlainHeadersAreInjective | src/joiny_mnemonic/reducers.py:320 | Among column lists without a comma in a name the header determines the columns. |
| Csv.HeaderIsSharedExactly | src/joiny_mnemonic/reducers.py:320 | A list of different columns shares its header with another one if and only if it has two or more columns, or one whose name has a comma and is not one text twice around it. |
| Csv.LosslessCsv | src/joiny_mnemonic/reducers.py:318-339 | The printer gives no text exactly when a row's keys are not the columns, and otherwise the rendering of the grid. |
| Views.SelectedWithContext | src/joiny_mnemonic/reducers.py:173-179 | Exactly the lines within the radius of a salient line are kept, in order. |
| Views.NearExactly | src/joiny_mnemonic/reducers.py:173-179 | Near is exactly no further than the radius from a salient line. |
| Basics.PickedGrows | src/joiny_mnemonic/reducers.py:173-179 | Lines are picked in their order. |
| Views.CollapseIsLosslessExactly | src/joiny_mnemonic/reducers.py:237-254 | Expanding the repeat markers recovers the lines if and only if every marker-form line after the first repeats the line before it. |
| Views.MarkerWords | src/joiny_mnemonic/reducers.py:247-253 | A marker says how often the line before it was repeated. |
| Views.CollapsedCounts | src/joiny_mnemonic/reducers.py:237-254 | What is counted as collapsed is exactly the lines that repeat the one before them. |
| Views.GenericView | src/joiny_mnemonic/reducers.py:237-277 | Every salient source line survives, head and tail are kept, and nothing is invented beside repeat markers and the note of the cut. |
| Views.FreshExactly | src/joiny_mnemonic/reducers.py:262-266 | Between head and tail stand exactly the near lines that were not shown already, each once. |
| Views.FreshGrows | src/joiny_mnemonic/reducers.py:263-265 | Each near line stands where it first comes up. |
| Views.CutExactly | src/joiny_mnemonic/reducers.py:261-266 | The note says how many lines it stands for, and the tail is that many of the last lines. |
| Views.ProtectedLinesArePresent | src/joiny_mnemonic/reducers.py:449-470 | Every protected source line is a line of the result, and no line of the view is lost. |
| Views.EnforceProtectedLines | src/joiny_mnemonic/reducers.py:449-470 | The closing fail-closed check never refuses a view. |
| Views.EnforcedWords | src/joiny_mnemonic/reducers.py:449-470 | A view that holds all protected lines stays as it is; otherwise those it lacks follow under a heading. |
| Views.RequiredSplit | src/joiny_mnemonic/reducers.py:455-458 | Protected lines keep the order of the source. |
| Views.MissingSplit | src/joiny_mnemonic/reducers.py:461-464 | So do those that a view lacks. |
| JsonView.ViewKeepsWhatItPromises | src/joiny_mnemonic/reducers.py:379-430 | The view is the source with rows left out, holds every protected row, and at most fifteen rows beside those. |
| JsonView.KeptExactly | src/joiny_mnemonic/reducers.py:379-421 | Of more than fifteen rows exactly those are kept that are in head or tail, are protected, or change the keys while head, tail and earlier changes make up fewer than fifteen. |
| JsonView.DifferentGrows | src/joiny_mnemonic/reducers.py:344-352 | Of equal rows the first one stays, where it is. |
| JsonView.FirstQuotaIs | src/joiny_mnemonic/reducers.py:397-399 | The head is the least number of rows that makes thirty percent, at most nine. |
| JsonView.LastQuotaIs | src/joiny_mnemonic/reducers.py:398-400 | The tail is the least number that makes fifteen percent, at most what the head leaves of fifteen. |
| JsonView.TableExactly | src/joiny_mnemonic/reducers.py:341-376 | The table is taken if and only if all rows are different, each has all the keys, and the text saves fifteen percent. |
| JsonView.TableIsLossless | src/joiny_mnemonic/reducers.py:341-376 | Arrays over the same keys that come out as the same table agree in every cell text. |
| JsonView.JsonArrayView | src/joiny_mnemonic/reducers.py:341-447 | The key counts, the gate and the selection loops give exactly that table or those rows, kept + dropped = total, and the fail-closed return is unreachable. |
| Hooks.InstallIsAReconciliation | src/joiny_mnemonic/hooks.py:939-993 | After an installation our handlers are exactly one per desired event, and the foreign groups of every event keep content and order. |
| Hooks.InstallLeavesTheRest | src/joiny_mnemonic/hooks.py:939-969 | Events that are not desired and held no handler of ours stay identical. |
| Hooks.InstallRefusesExactly | src/joiny_mnemonic/hooks.py:985-987 | An installation is refused exactly when a desired event holds something else than a list. |
| Hooks.OwnExactly | src/joiny_mnemonic/hooks.py:931-958 | Ours are exactly the handlers whose command we own; all others stay, each as often as it was there. |
| Hooks.OwnSplit | src/joiny_mnemonic/hooks.py:939-958 | Our handlers and the others both keep their order. |
| Hooks.NewGroupWords | src/joiny_mnemonic/hooks.py:988-992 | What is added is one handler with the command and a timeout of thirty seconds, under the matcher if there is one. |
| Hooks.InstallTwiceExactly | src/joiny_mnemonic/hooks.py:939-993 | Installing twice is installing once if and only if no desired event holds an empty group next to no handler of ours. |
| Hooks.EmptyForeignGroupIsLost | src/joiny_mnemonic/hooks.py:962-967 | A foreign group with an empty list is dropped by the second installation. |
| Hooks.RemoveUndoesInstallExactly | src/joiny_mnemonic/hooks.py:1017-1060 | Where nothing of ours was installed, removal restores the settings if and only if no desired event held an empty list. |
| Hooks.RemovalTakesExactly | src/joiny_mnemonic/hooks.py:1029-1057 | A removal takes exactly the handlers that hit; all others stay, in their order. |
| Hooks.WithoutExactly | src/joiny_mnemonic/hooks.py:1037-1041 | Within a group exactly the handlers that hit go, the others stay as often as they were there. |
| Hooks.Settings.StripOwnHandlers | src/joiny_mnemonic/hooks.py:939-969 | The in-place stripping leaves exactly the specified container. |
| Hooks.Settings.MergeCommandHooks | src/joiny_mnemonic/hooks.py:972-993 | The settings become the specified ones, or stay as they were when refused. |
| Hooks.Settings.RemoveCommandHooks | src/joiny_mnemonic/hooks.py:1017-1060 | Removal leaves exactly the specified container and says whether anything was removed. |
| TemporalArm.SelectCoverage | src/joiny_mnemonic/retrieval.py:272-292 | Round-robin keeps exactly min(10, pool) items of the pool, no bucket is more than one ahead of a bucket that still had items, and definite matches come first. |
| TemporalArm.BucketsAreEqualParts | src/joiny_mnemonic/retrieval.py:276-282 | The buckets cut the window into eight equal parts; what lies before or after goes to the first or the last. |
| TemporalArm.QueueOfPicked | src/joiny_mnemonic/retrieval.py:283-287 | From every bucket exactly a prefix is picked, in order. |
| TemporalArm.AncestorAsOf | src/joiny_mnemonic/retrieval.py:662-680 | The lineage walk ends on every link map, cyclic ones included, at the nearest visible version, or nowhere when none is visible. |
| Fusion.RrfFuse | src/joiny_mnemonic/retrieval.py:294-321 | Every key comes out once, in order of first appearance, with its summed score, its rank in each arm and its merged annotations. |
| Fusion.AnnotationsAreKept | src/joiny_mnemonic/retrieval.py:307-317 | The first copy's annotations are never overwritten, and every copy's are there. |
| Fusion.FusedScoreIsSum | src/joiny_mnemonic/retrieval.py:302-306 | With duplicate-free arms the score is the sum of 1/(k + rank) over the arms that have the hit. |
| Fusion.AgreementWins | src/joiny_mnemonic/retrieval.py:302-306 | A hit that two arms have among their first k + 1 outranks every hit of one arm alone. |
| Fusion.FactorBounds | src/joiny_mnemonic/retrieval.py:333-352 | The boost factor lies between 0.828 and 1.2221. |
| Fusion.RecencyExactly | src/joiny_mnemonic/retrieval.py:333-342 | Recency falls by one 365th a day from one down to a tenth. |
| Fusion.SignalsRaise | src/joiny_mnemonic/retrieval.py:333-354 | Confirmation, a younger age and more proximity each raise the factor. |
| Fusion.NoSignalsNoBoost | src/joiny_mnemonic/retrieval.py:333-354 | Without age, proximity and confirmation the score stays as it is. |
| Fusion.BoostsPreserveOrderExactly | src/joiny_mnemonic/retrieval.py:324-364 | Boosts preserve the order of two scores for all signals if and only if they differ by at least the factor 1.2221/0.828. |
| Fusion.NeighboursCanFlip | src/joiny_mnemonic/retrieval.py:327-328 | Two neighbours of one arm can be flipped. |
| Impact.NameMeansOne | src/joiny_mnemonic/code_index.py:188-195 | A called name means at most one symbol, and an indexed one. |
| Impact.MeansExactly | src/joiny_mnemonic/code_index.py:188-195 | A name means a symbol that has it and is the only one of the module to have it, or else the only one at all. |
| Impact.ShortExactly | src/joiny_mnemonic/code_index.py:193 | The short name is what follows the last dot. |
| Impact.CalledExactly | src/joiny_mnemonic/code_index.py:186-204 | In a built index one symbol calls another exactly when some call in its body means the other. |
| Impact.SymbolsSplit | src/joiny_mnemonic/code_index.py:184 | The symbols of a later file take the place of earlier ones with the same id. |
| Impact.AddedExactly | src/joiny_mnemonic/code_index.py:184 | Within a file the last declaration of an id counts. |
| Impact.FilesSplit | src/joiny_mnemonic/code_index.py:170-186 | Calls, imports and parse errors are those of all files, in order. |
| Impact.MatchingExactly | src/joiny_mnemonic/code_index.py:238-245 | A query that is no id means a symbol when that one alone has it as name or qualified name. |
| Impact.ExternalsAreMarked | src/joiny_mnemonic/code_index.py:195-211 | What resolves to nothing is marked as external under the name it was written with; an import resolves exactly when an indexed module provides it. |
| Impact.ProvidesExactly | src/joiny_mnemonic/code_index.py:205-210 | A module provides a name when it is that module or lies inside it. |
| Impact.WithoutDotsExactly | src/joiny_mnemonic/code_index.py:206 | The name of an import is taken without its leading dots, and only those. |
| Impact.CodeIndex.Build | src/joiny_mnemonic/code_index.py:149-214 | All symbols are indexed; each call has one edge, resolved exactly when its short name means one symbol of the module, or else one anywhere; each import leads to a module that provides it, or outside; an unchanged fingerprint changes nothing, and the index is that of the files unless one changed under its old time and size. |
| Impact.CodeIndex.Resolve | src/joiny_mnemonic/code_index.py:235-245 | A query resolves to itself when it is an id, and otherwise exactly when one symbol matches. |
| Impact.WithinExactly | src/joiny_mnemonic/code_index.py:263-287 | A symbol is within n exactly when a chain of at most n resolved calls reaches it. |
| Impact.CodeIndex.Impact | src/joiny_mnemonic/code_index.py:263-287 | Level i holds exactly the symbols at shortest distance i + 1; the affected ones are exactly those other than the root within the depth; all are indexed; a traversal that ends early has found everything reachable. |
| Finalization.TagLineExactly | src/joiny_mnemonic/finalization_observer.py:14-17 | A line is read as a tag exactly when it is that tag's own line. |
| Finalization.TagWords | src/joiny_mnemonic/finalization_observer.py:14-17 | The line of a tag: one of eight bracketed kinds, one of three statuses, a colon and the text. |
| Finalization.MarkersExactly | src/joiny_mnemonic/finalization_observer.py:32-37 | A fence marker is three backticks or tildes, a quote a bracket, after whitespace. |
| Finalization.LookalikesAre | src/joiny_mnemonic/finalization_observer.py:18-20 | A lookalike has one of the eight bracketed words anywhere. |
| Finalization.FenceIsOpenExactly | src/joiny_mnemonic/finalization_observer.py:32-44 | A fence is open exactly from a marker that found none open to the next line with the same marker. |
| Finalization.ClassesAreExact | src/joiny_mnemonic/finalization_observer.py:25-64 | The valid tags are exactly the full tag lines outside fences, and the three classes together have one place for each lookalike line. |
| Finalization.OtherClassesAreExact | src/joiny_mnemonic/finalization_observer.py:25-64 | The excluded lines are exactly the lookalikes inside fences or quotes, the malformed ones exactly the other lookalikes that are no full tag. |
| Finalization.ClassesGrow | src/joiny_mnemonic/finalization_observer.py:31-64 | Reading a further line only adds to the end of one class, so each keeps the order of the lines. |
| Finalization.ClassifyFinalizationText | src/joiny_mnemonic/finalization_observer.py:25-70 | The loop over the lines gives exactly those classes. |
| FinalizationLedger.ReplayChangesNothing | src/joiny_mnemonic/finalization.py:46-153 | Replaying any materialised events, in any order and number and however much later, changes no ledger and returns the same ids. |
| FinalizationLedger.RunKeeps | src/joiny_mnemonic/finalization.py:46-153 | Over every run there is one row per key, each record was asked for by its trusted event, and confirmed records and memories correspond one to one. |
| FinalizationLedger.PlanExactly | src/joiny_mnemonic/finalization.py:62-103 | A message asks for its valid standing tags as records, each once, unless two of them dispute a text; rejected are malformed lines, tags that only link, and all standing tags of a dispute. |
| FinalizationLedger.PlanInOrder | src/joiny_mnemonic/finalization.py:58-103 | Rejections come in this order: malformed lines, linking tags, disputed tags, each as the message has them. |
| FinalizationLedger.StandingGrows | src/joiny_mnemonic/finalization.py:66-84 | The standing tags of a longer message begin with those of its first lines. |
| FinalizationLedger.LinkingSplit | src/joiny_mnemonic/finalization.py:66-82 | Linking tags keep the order of the lines. |
| FinalizationLedger.AuditWords | src/joiny_mnemonic/finalization.py:40-43 | A record stores the text, with the status in brackets before it unless confirmed. |
| FinalizationLedger.StepAddsExactly | src/joiny_mnemonic/finalization.py:46-153 | One event adds nothing when it is not trusted, and otherwise exactly the rows its message asks for. |
| FinalizationLedger.LinkedSplit | src/joiny_mnemonic/finalization.py:105-147 | The memories of an outcome are those of its records, in their order. |
| FinalizationLedger.OneStatusPerText | src/joiny_mnemonic/finalization.py:83-103 | No event holds records with two statuses for one kind and text. |
| FinalizationLedger.AuditsCoincideExactly | src/joiny_mnemonic/finalization.py:40-43 | Tags with different statuses are stored alike if and only if one is confirmed and its text is the other's status mark and text. |
| FinalizationLedger.ContentsCoincideExactly | src/joiny_mnemonic/finalization.py:40-43 | The same for any two records of a ledger that any run leaves. |
| FinalizationLedger.ContentsCanCoincide | src/joiny_mnemonic/finalization.py:46-153 | From any ledger, one trusted message with two tag lines leaves a confirmed and another record with one stored content. |
| FinalizationStore.Store.RecordFinalization | src/joiny_mnemonic/finalization_storage.py:51-103 | The row is found or appended, or the first failing check is reported and nothing changes. |
| FinalizationStore.RefusalExactly | src/joiny_mnemonic/finalization_storage.py:62-90 | A record is accepted exactly for a trusted event of its branch, with a memory of that branch or none, and no other memory for the same record; the first failing check is named. |
| FinalizationStore.Store.QuarantineFinalization | src/joiny_mnemonic/finalization_storage.py:105-130 | The rejection is found or appended; an unknown event is refused. |
| FinalizationStore.Store.MaterializeFinalizations | src/joiny_mnemonic/finalization.py:46-153 | The nested loops leave exactly the specified ledgers and outcomes; no refusal of the record store can happen. |

## Left out

- SQL, locks, encoding, redaction of secrets and the byte limit on blocks: steps are atomic and text is stored as given.
- Branches and lineage of events: each state machine is that of one branch.
- Task memories that follow a closure, hygiene findings, and the window in which files are probed for invalidation.
- The grouping that feeds a packet: the recent groups and their rendering are inputs of `Packet`; `Transcript` has the grouping itself.
- Retrieval arms, ranking within an arm, temporal truth values and freshness: hits, arms, certainty and window offsets are inputs.
- JsonView.JsonArrayView: takes the keys in the order in which they come up, since a row is a map; parsing the JSON text and unwrapping a single list come before it.
- Test, search, build and diff views, summaries, signal recall and framing of reduced output: list building without further rules.
- The annotations other than the row texts in view metadata, such as the rounded savings.
- The order of keys in settings files and of ids in sorted lists: they are sets and maps here, so an installation that reorders keys counts as unchanged.
- OpenHands installation, which strips and appends as `Hooks` does, with another handler text; the outer document around the hook section.
- Impact.CodeIndex.Build: takes what the syntax tree of each file holds; which of several modules that provide an import is chosen is left open, as set order leaves it open.
- FinalizationStore.Store.MaterializeTag: looks a row up when its tag's turn comes, where the code collects the event's rows once; the tags of one event differ, so the rows found are the same.
- The rebuild that each query of the code index starts with: `Build` is a step of its own.
- A file or link that changes between the look at a path and its hash, in `HashCache`; reading the git head.
- Numeric parsing of configured limits, profiles and configuration files around `Governor.ValidateLimits`.
- Floating-point rounding of ratios, ceilings and scores, the 1.35 tokens per word included.
- Errors raised by deriving a memory inside `FinalizationStore.Store.MaterializeTag`, which abort the whole transaction.
- Full Unicode case folding, and CommonMark beyond what the zone map itself does.
- Command line, HTTP, plugins, model calls, benchmarks and installers of the runtime.

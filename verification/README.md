# Verified model of the Docxtool plugin for WPS

The plugin recognizes the structure of a document, rewrites its paragraphs, formats them and previews the result as
comments. Around the calls into the word processor sit algorithms that edit, index, undo and hand over work. This
project models those algorithms in Dafny and proves what they promise; `dafny verify dfyconfig.toml` checks everything.

**Structural normalization** (`RecognitionMapping`, `RecognitionVerdicts`, `StructureModel`, `StructureRefusal`,
`StructureEdit`, `StructureResult`, `StructureHost`, `StructureDuplicates`, `StructurePlan`, `StructurePlanFits`,
`StructureFixpoint`, `StructureNormal`). The recognizer's blocks and their bindings are mapped to verified targets; the
worker plans, from these UTF-16 segments, splits, trims and deletions of empty paragraphs; the host checks the plan and
edits the live document, paragraphs from the last to the first and operations from right to left, always with the
original offsets. The edit loop is proved to reach the declarative document (every planned paragraph replaced by its
fragments), plans made from verified segments are proved to be accepted with the counts the host reports, and planning
again on the result is proved to find nothing. Every target the mapping resolves is such a verified segment, whatever
the recognizer says, so `RecognizedNormalizationSucceeds` goes from the recognizer's plan to the edited document. The
mapping does not fail block by block in one case: a block to be reviewed whose canonical range fits and whose raw range
cuts out nothing makes the whole recognition fail (`FailsExactly`). A zero-width split inside a surrogate pair lands
after the pair: the landed document is the planned one if and only if no split is there (`LandedExactly`). What the host
accepts is said in terms of paragraphs and offsets (`NotRefusedExactly`): one paragraph that has changed since planning
makes the batch refused and leaves the document as it was. What planning and editing do together is said without plans
(`NormalizationReachesNormal`): every completely recognized paragraph becomes its segments in order, every plain empty
paragraph between a heading and body text goes, and everything else stays. The host does not refuse a paragraph named
twice: a list of paragraph numbers is safe, whatever the document and the items, if and only if it repeats none
(`DuplicatesExactly`). After a failure the host believes Undo when paragraph count and visible text are back, and
reports a failed rollback otherwise.

**Host text** (`HostText`, `HostTextGolden`, `HostTextLaws`, `Utf16`, `TargetLocator`). Canonical text with its two
offset maps: what the maps select for each raw unit, whichever line break it is, a Galois connection, exact raw ranges
for aligned canonical ranges, agreement of the two canonicalizers, and the locator's character ordinals for every
string, ill-formed ones included.

**Format transaction** (`FormatJournal`, `FormatTransaction`, `FormatWorker`, `FormatWrites`, `FormatSafety`). Batches
of twelve commands share one undo journal. After a run committed without failure every slot reads what the last command
that addresses it asked for, landscape pages turned by a quarter, and all other slots read as before (`FormatWrites`).
Fonts belong to the characters a command names, alignment, indents and spacing to the whole paragraph these lie in. The
document is the original again exactly when the failing command left nothing in a slot that no completed command had
captured; a paragraph command whose own readback fails is the case where it does. So a command is safe where it stands
if and only if it is a page setup or every slot it writes was captured before it, which for a paragraph command means
that an earlier command of its kind formats the same characters or the same paragraph; and a list of commands is all or
nothing in every run if and only if it holds nothing but page setups (`SafeAtExactly`, `SafeByRepetition`,
`SafeExactly`). A restore that throws stops the rollback and leaves the journal reversed; when the grid did not read
back, the batch is then reported as done, the worker goes on, and the run can be committed half undone
(`HalfUnwoundCommits`). A run is committed with all its effects or fully unwound if and only if no restore throws in the
rollback of the commands that have completed (`EndsWellExactly`).

**Recognition broker** (`BrokerClaims`, `BrokerRecovery`, `BrokerTerminal`, `BrokerOutcome`). Any number of brokers, the
recognizer and the host interleave at single file operations and brokers die between any two of them. The recognizer is
launched at most once; the terminal files tell the truth; the first outcome the host can see is the only one it ever
reports. `BrokerOutcome` says which one that is: cancelled, when the cancellation is seen in time and the recognizer
leaves nothing; what the recognizer wrote, when it wrote something usable, however late a cancellation; and else the
failure its exit calls for. A result the host cannot use makes every probe fail and never ends the job for the host
(`UnusableNeverEnds`). The repository's documentation (`README.md:40`, `docs/问题清单Agent.md:465`) promises that a claim
whose owner is gone is queued again. The code does not always do it. It reads `claim.lock` first, which lacks the queue
fields, so a broker that dies after unlinking `queued.json` takes the job with it while the host waits; and a broker
that dies between creating `claim.lock` and writing it leaves a lock nobody can read or create, so the job is lost
although `queued.json` is still there. The model follows the code. `CrashExactly` says when the job can still be
launched after the owner of its claim has died: if and only if `queued.json` is still there and the lock has been
written, with no outcome and no cancellation yet.

**Control server jobs** (`ControlJobs`, `ControlCoordinator`, `ControlOutcomes`). A store with one waiting job and one
coordinator. Its documentation speaks of one active job; a cancellation between the last look at the token and the
planning stage leaves a job in "recognizing" for good, so two can be shown as active. `ActiveExactly` says which jobs
are active, `TwoActive` gives the run. The error of a stage timeout is never shown: the timeout sets the job's own
token, and the job ends as cancelled (`TimeoutIsNeverShown`).

**Preview comments** (`PreviewComments`, `PreviewFingerprint`, `PreviewSession`). Comments are found again by signature
and deleted in batches; by multiset they never touch the user's. A comment that was added but not recorded, because it
could not be found again or given its author, stays: from then on clearing fails, and `StrayBlocksCleanup` is such a
run. The user's comments are guarded by one string, their signatures sorted and joined with "|", and the code compares
strings, not comments. Equal comments give equal strings, and a comment more always gives another one, whatever the
signatures contain. But two or more stored comments can always be replaced by a single one without changing the string,
so a change is always noticed if and only if there is no comment, or a single one that is not itself two signatures
joined (`GuardsExactly`, `NoticedExactly`).

**Document repair** (`DocumentRepair`, `DocumentSurgery`, `DocumentParse`). Removing drawings with broken images through
a parent map equals a recursive filter on the element tree, for every tree; the caller accepts the result if and only
if, in addition, no drawing holds two of them.

**Smaller parts**: quoting of Windows arguments against the Microsoft C runtime's rules (`CommandLine`), the unified
log's writer, line format and reader (`LogWriter`, `LogLine`, `LogReading`), adaptive batch sizes and the snapshot loop
(`AdaptiveBatch`, `AdaptiveSizes`, `SnapshotLoop`). The log writer remembers the fingerprint of an event even when its
call throws and nothing is written; `SafeToContinue` says exactly when the next call cannot write a repeated event; a
write that stops half-way is part of it. The reader cuts the file wherever Python's `str.splitlines` does, and redaction
replaces only carriage return and line feed; `LogReadsBack` says exactly which logs of error events are read back event
for event.

Assumptions, each stated once in the model: the editor's operations (replacing, breaking, deleting a range, undo) do
what `StructureEdit.Cut`, `StructureEdit.Break` and `StructureHost.Host.Edit` say; SHA-256 is injective on the texts in
play; NFKC is a parameter; redaction is a parameter that brings in no separator; files are created, replaced and
unlinked in one step.

## Model

| member | source | states |
|---|---|---|
| Utf16.CharsBetween | packages/wps-adapter/src/host-bridge.ts:56-61 | for any string, the characters between the ordinals of two boundaries concatenate to exactly the slice |
| Utf16.CharacterOrdinal | packages/wps-adapter/src/host-bridge.ts:56-61 | the counting loop succeeds exactly at character boundaries and returns the number of characters before the offset |
| Sorting.SortSorts | packages/wps-adapter/src/host-bridge.ts:305-324 | the comparator sorts permute and order |
| StructureModel.AcceptedApart | packages/wps-adapter/src/host-bridge.ts:299-308 | gaps the host accepts, taken right to left, are white space between the two trims, each ending strictly before the next one starts |
| StructureRefusal.AcceptedExactly | packages/wps-adapter/src/host-bridge.ts:289-309 | an item is accepted if and only if its paragraph is there, outside tables and unchanged since planning, the trims cut off white space only, and the gaps are white space between the trims with text between any two |
| StructureRefusal.RefusedExactly | packages/wps-adapter/src/host-bridge.ts:290-309 | a missing, tabular or changed paragraph is a range mismatch, everything else that cannot be done an invalid plan |
| StructureEdit.RangeLands | packages/wps-adapter/src/host-bridge.ts:63-82 | a range computed from the original offsets selects the intended text although everything to its right has been edited, and the readback check passes |
| StructureEdit.SplitsLand | packages/wps-adapter/src/host-bridge.ts:321-332 | the splits of one paragraph, right to left with original offsets, leave exactly its fragments |
| StructureEdit.OpsLand | packages/wps-adapter/src/host-bridge.ts:321-332 | splits and both trims of one paragraph leave exactly the trimmed fragments |
| StructureEdit.DescendingItemsLand | packages/wps-adapter/src/host-bridge.ts:316-333 | items from the last paragraph to the first leave every paragraph number still to come valid |
| StructureEdit.EditsLand | packages/wps-adapter/src/host-bridge.ts:312-333 | the whole edit loop, from any accepted items for distinct paragraphs, ends in the declarative document |
| StructureResult.CountFrom | packages/wps-adapter/src/host-bridge.ts:334-335 | the new paragraph count is the old one plus boundaries minus removed paragraphs |
| StructureResult.VisibleUnchanged | packages/wps-adapter/src/host-bridge.ts:334-335 | the text without white space is unchanged, so the closing check passes |
| StructureResult.LandedExactly | packages/wps-adapter/src/host-bridge.ts:71-74 | the landed document is the planned one if and only if no split lies inside a surrogate pair |
| StructureResult.VisibleExactly | packages/wps-adapter/src/host-bridge.ts:49-54 | which code units are white space, and that exactly they are invisible |
| StructureResult.VisibleOfAll | packages/wps-adapter/src/host-bridge.ts:49-54 | the visible text of a document is that of all its texts one after the other |
| StructureResult.SplitsCounted | packages/wps-adapter/src/host-bridge.ts:343-345 | the reported splits are the paragraphs that became several |
| StructureHost.Host.CaptureDescriptor | packages/wps-adapter/src/host-bridge.ts:156-167 | remembers the identity the token stands for |
| StructureHost.Host.ApplyNormalizationBatch | packages/wps-adapter/src/host-bridge.ts:274-358 | refuses as specified without touching the document, else edits and reports the counts; after a failure the error stands if Undo brought paragraph count and visible text back, and is the failed rollback otherwise; when Undo throws the document is as far as the edits got |
| StructureHost.NotRefusedExactly | packages/wps-adapter/src/host-bridge.ts:279-311 | a batch is not refused if and only if it is neither empty nor too long, the visible text is the expected one, every item can be done to its paragraph, and the edits are between one and 200 |
| StructureHost.TotalIsEdits | packages/wps-adapter/src/host-bridge.ts:284-311 | what the host adds up is the number of edits the items ask for |
| StructureHost.StaleRefused | packages/wps-adapter/src/host-bridge.ts:290-309 | one item whose paragraph has changed, or that cannot be done, makes the whole batch refused |
| StructureHost.Host.Validate | packages/wps-adapter/src/host-bridge.ts:279-311 | first refusal in the order of the checks |
| StructureHost.Host.CheckOne | packages/wps-adapter/src/host-bridge.ts:290-309 | an item passes exactly when its hash, trims and gaps fit its paragraph |
| StructureHost.Host.Edit | packages/wps-adapter/src/host-bridge.ts:312-333 | the loop over paragraphs is the run of their operations in descending order |
| StructureHost.Host.EditParagraph | packages/wps-adapter/src/host-bridge.ts:321-332 | the loop over one paragraph's operations |
| StructureHost.SplitRange | packages/wps-adapter/src/host-bridge.ts:63-82 | the range of the live paragraph, or the mismatch |
| StructureHost.BatchReachesPlan | packages/wps-adapter/src/host-bridge.ts:312-345 | a batch that is not refused, for distinct paragraphs, succeeds, reaches the planned document up to splits in pairs, and reports its counts |
| StructureHost.PairNotSplit | packages/wps-adapter/src/host-bridge.ts:71-74 | an accepted batch with a zero-width split inside a pair that does not reach the plan |
| StructureDuplicates.DuplicatesExactly | packages/wps-adapter/src/host-bridge.ts:289-335 | a list of paragraph numbers leads to the planned document for every document and all items with these numbers, if and only if it repeats none or is refused outright |
| StructureDuplicates.RepetitionMisses | packages/wps-adapter/src/host-bridge.ts:312-319 | for every list that repeats a number: an accepted batch that succeeds and misses the plan |
| StructureDuplicates.DeletionsRun | packages/wps-adapter/src/host-bridge.ts:316-319 | every deletion takes one empty paragraph away, whichever it names |
| StructureDuplicates.DuplicatesNotRefused | packages/wps-adapter/src/host-bridge.ts:289-311 | an accepted batch naming a paragraph twice deletes another empty paragraph with it |
| RecognitionMapping.MapPlan | packages/recognition-client/src/index.ts:118-207 | the loops compute the mapping: every block in the flow becomes a target or is listed with a reason, or the mapping throws |
| RecognitionMapping.CompleteGroups | packages/recognition-client/src/index.ts:131-136 | a physical paragraph is complete exactly when all its segments are there and confirmed |
| RecognitionVerdicts.CompleteExactly | packages/recognition-client/src/index.ts:125-136 | a group of blocks is complete if and only if it has as many as one of them counts, none counts more, and all are confirmed |
| RecognitionMapping.JudgeBlock | packages/recognition-client/src/index.ts:140-170 | what becomes of one block: skipped, unresolved with its reason, found, or fatal |
| RecognitionVerdicts.BindingExactly | packages/recognition-client/src/index.ts:121-122 | the last binding for a block is the one that counts |
| RecognitionVerdicts.FoundExactly | packages/recognition-client/src/index.ts:141-169 | a block is found if and only if it is in the flow, its locator is verified, its last binding names ranges of a paragraph outside tables, the hash its status calls for fits, and the raw range can be cut out |
| RecognitionVerdicts.OpenExactly | packages/recognition-client/src/index.ts:141-169 | why a block in the flow stays open: its locator is not verified, or else its binding is not confirmed |
| RecognitionVerdicts.TargetsAreLocated | packages/recognition-client/src/index.ts:145-148 | every target comes from a block in the flow whose locator is verified, and has that block's source range |
| RecognitionMapping.FailsExactly | packages/recognition-client/src/index.ts:118-190 | the mapping throws if and only if the text contracts differ or one block is fatal |
| RecognitionMapping.BreaksOnlyInReview | packages/recognition-client/src/index.ts:160-187 | a fatal block is one to be reviewed, whose canonical fragment is verified and whose raw range cuts out nothing |
| RecognitionMapping.ReviewFails | packages/recognition-client/src/index.ts:167-187 | a recognition that fails as a whole for one such block |
| RecognitionMapping.EveryBlockAnswered | packages/recognition-client/src/index.ts:141-204 | targets and unresolved blocks are together as many as the blocks in the flow |
| RecognitionMapping.AppliedIsWhole | packages/recognition-client/src/index.ts:170-197 | a target to be applied is a whole paragraph whose text has the recognized hash, confirmed, in a complete physical paragraph of one segment |
| RecognitionVerdicts.AppliedExactly | packages/recognition-client/src/index.ts:170-197 | a target is applied if and only if it is confirmed, its physical paragraph complete and it is the one segment of the whole host paragraph; when it needs a review, when it is mixed, and its segment counts |
| RecognitionVerdicts.KindsExactly | packages/recognition-client/src/index.ts:78-85 | which recognized types are headings, of which level, and which are body text |
| RecognitionMapping.OccurrencesUpTo | packages/recognition-client/src/index.ts:138-187 | targets with the same fragment are numbered from zero in order |
| RecognitionMapping.RecognitionFits | packages/recognition-client/src/index.ts:153-185 | every target's range cuts its fragment out of a paragraph of the document, and its hash is that paragraph's |
| RecognitionMapping.RecognizedNormalizationSucceeds | packages/wps-adapter/src/host-bridge.ts:274-358 | whatever was recognized, a plan from the mapped targets, within the limit and not empty, is carried out exactly |
| StructurePlan.CreatePlan | apps/classified-offline/src/pipeline-worker.ts:113-158 | the planner's loops compute the plan function, errors included |
| StructurePlan.GroupByHost | apps/classified-offline/src/pipeline-worker.ts:115-120 | groups the verified segments by paragraph in order of first appearance |
| StructurePlan.PlanGroups | apps/classified-offline/src/pipeline-worker.ts:122-142 | one item for every complete group that needs one, or the first mismatch |
| StructurePlan.CollectDeletions | apps/classified-offline/src/pipeline-worker.ts:143-150 | exactly the plain empty paragraphs between a heading and body text |
| StructurePlan.PlanGroup | apps/classified-offline/src/pipeline-worker.ts:127-141 | boundaries and trims of one group, or the mismatch |
| StructureNormal.AtExactly | apps/classified-offline/src/pipeline-worker.ts:115-126 | the segments of a paragraph are the verified ones that name it, each as often as it occurs, by their starts |
| StructureNormal.CompleteExactly | apps/classified-offline/src/pipeline-worker.ts:125-126 | a group is complete if and only if it has as many segments as one of them counts, none counts more, and every one knows of them all |
| StructureNormal.PlannableExactly | apps/classified-offline/src/pipeline-worker.ts:127-141 | a paragraph can be planned if and only if its segments follow each other and every character outside them is white space |
| StructureNormal.PlanSucceedsExactly | apps/classified-offline/src/pipeline-worker.ts:122-142 | planning succeeds if and only if this holds of every complete paragraph outside tables |
| StructureNormal.DeletableExactly | apps/classified-offline/src/pipeline-worker.ts:143-150 | a paragraph is deleted if and only if it is plain and empty, between a verified heading of level 1 to 4 and verified body text |
| StructureNormal.PlanIsNormal | apps/classified-offline/src/pipeline-worker.ts:113-158 | a successful plan describes exactly this document: every complete paragraph replaced by its segments in order, the empty ones between heading and body gone, all others as they were |
| StructureNormal.NormalizationReachesNormal | packages/wps-adapter/src/host-bridge.ts:274-358 | planning and editing together leave that document, with the planned counts; a plan without items means the document is in that form already |
| StructurePlanFits.PlanFits | apps/classified-offline/src/pipeline-worker.ts:122-150 | a plan from in-bounds, non-empty, hash-verified segments has distinct paragraphs and passes every structural check of the host |
| StructurePlanFits.PlanCounts | apps/classified-offline/src/pipeline-worker.ts:151-157 | it predicts the counts the host reports |
| StructurePlanFits.NormalizationSucceeds | packages/wps-adapter/src/host-bridge.ts:274-358 | such a plan, within the limit of 200 operations and not empty, is carried out exactly |
| StructureFixpoint.PlanningAgainFindsNothing | apps/classified-offline/src/pipeline-worker.ts:113-158 | when fragments are recognized as whole paragraphs of their type and the rest as before, planning on the result gives no item, no new deletion included |
| HostText.CreateTape | packages/wps-adapter/src/host-text.ts:92-125 | the loop builds the canonical text, both offset maps and the warning as specified |
| HostText.RecordPiece | packages/wps-adapter/src/host-text.ts:115-119 | the inner loop records every character end of one piece |
| HostText.MapsConnect | packages/wps-adapter/src/host-text.ts:92-125 | the two maps form a Galois connection on the recorded offsets |
| HostText.AlignedRange | packages/wps-adapter/src/host-text.ts:136-141 | for ranges aligned to pieces the raw range canonicalizes piecewise to exactly the canonical slice |
| HostText.AlignedRangeIsUnits | packages/wps-adapter/src/host-text.ts:136-141 | and it covers whole raw units |
| HostTextLaws.UnitOnTape | packages/wps-adapter/src/host-text.ts:92-125 | what the tape's map selects for a raw unit is one line feed for CRLF, CR, LF and VT, one space for U+00A0 and U+3000, nothing for the trailing cell marker, and the normalized unit otherwise |
| HostTextLaws.UnitOnGolden | packages/wps-adapter/src/host-text.ts:42-79 | the same of the second canonicalizer's array |
| HostTextLaws.LineBreaksAlike | packages/wps-adapter/src/host-text.ts:31-35 | writing every CRLF, CR and VT as LF leaves the canonical text unchanged |
| HostTextLaws.StripExactly | packages/wps-adapter/src/host-text.ts:82-90 | exactly the editor's terminators are cut off |
| HostTextGolden.Canonicalize | packages/wps-adapter/src/host-text.ts:42-79 | the second canonicalizer's loop, with arrays indexed by code point |
| HostTextGolden.CanonicalizersAgree | packages/wps-adapter/src/host-text.ts:42-125 | same canonical text and warnings on every string, and the arrays are the maps after converting indices to offsets |
| TargetLocator.SliceAccepted | packages/wps-adapter/src/host-text.ts:127-134 | an accepted range has boundaries at both ends, so no ordinal conversion can fail |
| TargetLocator.SliceIsCharacters | packages/wps-adapter/src/official-host.ts:243-257 | the characters from firstOrdinal+1 through lastOrdinal concatenate to exactly the slice |
| TargetLocator.Locate | packages/wps-adapter/src/official-host.ts:231-261 | the located range is the slice with the expected hash, or the error of the first check that fails |
| FormatJournal.UnwindSlot | packages/wps-adapter/src/official-host.ts:211-216 | after unwinding, every captured slot has its original value, whatever overlaps |
| FormatJournal.UnwindRestores | packages/wps-adapter/src/official-host.ts:211-216 | unwinding restores the original exactly where nothing foreign was left outside the captured slots |
| FormatTransaction.FormatHost.BeginTransaction | packages/wps-adapter/src/host-bridge.ts:360-366 | one open transaction at a time |
| FormatTransaction.FormatHost.RollbackJournal | packages/wps-adapter/src/official-host.ts:211-217 | runs every restore once, last first, and forgets the journal; or stops at the restore that throws and keeps the journal, reversed |
| FormatTransaction.FormatHost.ApplyAll | packages/wps-adapter/src/official-host.ts:288-294 | the commands before the first one that throws are applied and journalled, each with what it saw |
| FormatTransaction.FormatHost.Execute | packages/wps-adapter/src/official-host.ts:282-309 | all commands applied and journalled, or the whole journal unwound as far as the restores go |
| FormatTransaction.FormatHost.ApplyBatch | packages/wps-adapter/src/host-bridge.ts:368-382 | a failed batch closes the transaction after unwinding every earlier batch; a grid that does not read back is reported as failed if and only if no restore throws |
| FormatTransaction.FormatHost.RollbackTransaction | packages/wps-adapter/src/host-bridge.ts:384-390 | rolls the owned transaction back once and closes it, whether or not a restore throws; a second rollback does nothing |
| FormatTransaction.FormatHost.CommitTransaction | packages/wps-adapter/src/host-bridge.ts:392-400 | commits only the open transaction and keeps the document |
| FormatWorker.FormatBatch | apps/classified-offline/src/pipeline-worker.ts:413-422 | one slice of at most twelve continues the run where the last one stopped, or ends it, restores that throw included |
| FormatWorker.RunBatches | apps/classified-offline/src/pipeline-worker.ts:411-422 | the loop over the slices |
| FormatWorker.RunTransaction | apps/classified-offline/src/pipeline-worker.ts:411-437 | the slices and the commit, and on any error the rollback of what is still open |
| FormatWorker.ApplyFormat | apps/classified-offline/src/pipeline-worker.ts:404-437 | outcome, document, journal and restores of every run; committed with all commands in order, or every restore of every completed command run exactly once in reverse, unless a restore throws |
| FormatWorker.EndsWellExactly | apps/classified-offline/src/pipeline-worker.ts:404-437 | a run is committed with all effects and grids, or fully unwound, if and only if no restore throws in the rollback of the completed commands |
| FormatWorker.HalfUnwoundCommits | packages/wps-adapter/src/host-bridge.ts:368-382 | a run that is committed although one of its commands has been undone |
| FormatWorker.AllOrNothing | packages/wps-adapter/src/official-host.ts:282-376 | an uncommitted run leaves the original document if and only if the failing command left no foreign value in an uncaptured slot |
| FormatWrites.AddressesExactly | packages/wps-adapter/src/official-host.ts:310-376 | which slots a command writes |
| FormatWrites.FontReads | packages/wps-adapter/src/official-host.ts:313-325 | after a committed run the characters have what the last font command for them asked, at natural width and off the grid |
| FormatWrites.AlignmentReads | packages/wps-adapter/src/official-host.ts:326-331 | after a committed run a paragraph has the alignment the last alignment command in it asked |
| FormatWrites.IndentReads | packages/wps-adapter/src/official-host.ts:332-339 | the same of first line, left and right indents |
| FormatWrites.SpacingReads | packages/wps-adapter/src/official-host.ts:340-347 | the same of spacing, page break and outline level, with 10 for no level, exact line spacing and no grid |
| FormatWrites.PageReads | packages/wps-adapter/src/official-host.ts:43-50 | after the last page setup of a committed run a portrait section has each edge as asked; a landscape section has width and height exchanged and its top, bottom, left and right edges are the margins asked for left, right, bottom and top |
| FormatWrites.QuarterTurns | packages/wps-adapter/src/official-host.ts:43-50 | two quarter turns exchange opposite edges, four change nothing |
| FormatWrites.OthersRead | packages/wps-adapter/src/official-host.ts:310-376 | what no command addresses reads as before |
| FormatWorker.FailedReadbackStays | packages/wps-adapter/src/official-host.ts:313-347 | a paragraph command that fails its own readback is such a case |
| FormatSafety.SafeAtExactly | packages/wps-adapter/src/official-host.ts:310-376 | a command leaves nothing behind in any run it fails, if and only if it is a page setup or every slot it writes was captured by a command before it |
| FormatSafety.SafeByRepetition | packages/wps-adapter/src/official-host.ts:310-347 | a paragraph command is safe where it stands if and only if an earlier command of its kind formats the same characters, or, for alignment, indents and spacing, the same paragraph |
| FormatSafety.SafeExactly | packages/wps-adapter/src/official-host.ts:282-376 | a list of commands is all or nothing in every run if and only if it holds nothing but page setups |
| FormatSafety.ForeignStays | packages/wps-adapter/src/official-host.ts:313-347 | a run for every unsafe position, reached through all the batches before it |
| BrokerClaims.LaunchedOnce | local-runtime/job_broker.py:361-524 | in every run the recognizer is launched at most once, and the right to launch is in one place: queued.json, the broker that unlinked it, or the launch |
| BrokerClaims.StepKeeps | local-runtime/job_broker.py:361-599 | every step of every actor keeps lock ownership, the single right and the state of the files |
| BrokerClaims.UnlinkKeeps | local-runtime/job_broker.py:450-452 | unlinking queued.json takes the right, and only one broker can |
| BrokerClaims.OpenKeeps | local-runtime/job_broker.py:361-374 | exclusive creation of claim.lock gives ownership to one broker |
| BrokerClaims.RecoverKeeps | local-runtime/job_broker.py:384-422 | recovery of a dead owner's claim never makes a second right |
| BrokerClaims.ConsumeKeeps | packages/wps-adapter/src/recognition-jobs.ts:145-149 | the host's clean-up under a running broker never makes a second right |
| BrokerClaims.ReleaseKeeps | local-runtime/job_broker.py:376-382 | releasing a lock that may belong to another broker stays safe |
| BrokerRecovery.CrashExactly | local-runtime/job_broker.py:384-457 | after the owner of a claim dies, the job can be launched while the host waits if and only if queued.json is still there and claim.lock written, with no outcome and no cancellation |
| BrokerRecovery.RecoveredJobIsLaunched | local-runtime/job_broker.py:384-524 | the run in which another broker recovers the claim, claims the job again and launches it |
| BrokerRecovery.CrashedClaimIsLost | local-runtime/job_broker.py:384-422 | when the broker that unlinked queued.json dies, nothing launches the job while the host waits, recovery included |
| BrokerRecovery.EmptyLockIsLost | local-runtime/job_broker.py:361-399 | when a broker dies between creating and writing claim.lock, nothing launches the job while the host waits |
| BrokerRecovery.ClaimsReached | local-runtime/job_broker.py:424-457 | runs that reach each kind of claim: an empty lock, a written one, and the unlinked queue file |
| BrokerClaims.CancelStopsLaunch | local-runtime/job_broker.py:485-498 | a cancellation written before any broker's second look prevents the launch for good |
| BrokerTerminal.EndsTruthfully | local-runtime/job_broker.py:526-599 | finished.json only with a result or an error, never both, completed exactly with a result; nothing is written after the host has consumed |
| BrokerTerminal.ResultStands | local-runtime/job_broker.py:572-599 | a result is never overwritten nor joined by an error, however late a cancellation |
| BrokerTerminal.OutcomeIsFinal | packages/wps-adapter/src/recognition-jobs.ts:90-119 | once the files show an outcome, it is the only one the host can report, its probe being several file operations |
| BrokerTerminal.ReportsWhatFilesShow | packages/wps-adapter/src/recognition-jobs.ts:90-119 | the host reports what the files show, and not before |
| BrokerTerminal.CancelledOnlyOnRequest | packages/wps-adapter/src/recognition-jobs.ts:107-113 | cancelled is reported only on the host's request or the recognizer's word |
| BrokerOutcome.CancelledDuring | local-runtime/job_broker.py:542-564 | once the broker has seen a cancellation at a poll, or is about to, and the recognizer is gone without having written anything, no continuation shows or reports anything but cancelled, and the broker alone gets there |
| BrokerOutcome.CancelledBefore | local-runtime/job_broker.py:491-498 | the same of a cancellation found before launch, and the recognizer is never started |
| BrokerOutcome.ExitedSilently | local-runtime/job_broker.py:565-566 | without a cancellation a recognizer that exits and leaves no file makes the job fail with the code its exit status calls for |
| BrokerOutcome.StartFails | local-runtime/job_broker.py:523-524 | a recognizer that cannot be started makes the job fail with the code for that |
| BrokerOutcome.ClaimRefused | local-runtime/job_broker.py:445-456 | a request that is refused makes the job fail with the code of the refusal |
| BrokerOutcome.StartsUnlessCancelled | local-runtime/job_broker.py:491-522 | without a cancellation, and with nothing in the way, the recognizer is started |
| BrokerOutcome.ErrorDecides | packages/wps-adapter/src/recognition-jobs.ts:109-115 | an error the recognizer has written decides the outcome, whoever cancels and however it exits |
| BrokerOutcome.PlanDecides | packages/wps-adapter/src/recognition-jobs.ts:95-108 | a plan the recognizer has written decides the outcome, whoever cancels and however it exits |
| BrokerOutcome.UnusableNeverEnds | packages/wps-adapter/src/recognition-jobs.ts:95-103 | a result the host cannot use never ends the job for the host |
| BrokerTerminal.BrokerKeeps | local-runtime/job_broker.py:485-599 | what the broker relies on between its file operations |
| BrokerTerminal.RecognizerKeeps | local-runtime/recognize_entry.py:96-121 | the recognizer writes a result or an error, once, before it exits |
| ControlJobs.JobStore.Submit | control-server/src/wps_control_server/jobs.py:68-87 | idempotent by request id, refused when reused, closed or full |
| ControlJobs.JobStore.TakeNext | control-server/src/wps_control_server/jobs.py:89-105 | hands over the waiting job |
| ControlJobs.JobStore.Cancel | control-server/src/wps_control_server/jobs.py:111-125 | removes a waiting job, marks a running one, leaves a finished one |
| ControlJobs.JobStore.SetRunning | control-server/src/wps_control_server/jobs.py:127-136 | enters a stage unless cancelled |
| ControlJobs.JobStore.Finish | control-server/src/wps_control_server/jobs.py:138-154 | cancelled before failed before completed |
| ControlJobs.JobStore.Close | control-server/src/wps_control_server/jobs.py:156-168 | every waiting job cancelled, the active one marked |
| ControlOutcomes.SubmitExactly | control-server/src/wps_control_server/jobs.py:68-87 | in every reachable state: when a request is accepted, what then waits, and the answer and unchanged state otherwise |
| ControlOutcomes.FinishExactly | control-server/src/wps_control_server/jobs.py:138-154 | how an ending job ends, and that no other job is touched |
| ControlOutcomes.StagesExactly | control-server/src/wps_control_server/jobs.py:230-269 | what each reply of a stage leads to |
| ControlOutcomes.UndisturbedJobEnds | control-server/src/wps_control_server/jobs.py:230-269 | a waiting job that nobody cancels and whose stages return in time is completed with the planner's value, or fails with the first error |
| ControlOutcomes.CancelTakes | control-server/src/wps_control_server/jobs.py:111-125 | a job that was cancelled before it ended is never shown as completed or failed; one that waited ends as cancelled |
| ControlOutcomes.CloseExactly | control-server/src/wps_control_server/jobs.py:156-168 | closing cancels what waits, marks the executed job, leaves all others, and refuses every later request |
| ControlCoordinator.StoreSound | control-server/src/wps_control_server/jobs.py:57-269 | in every run at most one job waits, exactly the completed jobs have a result, and every unfinished job is waiting, executed or abandoned |
| ControlCoordinator.RunSound | control-server/src/wps_control_server/jobs.py:57-269 | finished jobs never change, requests and their jobs never change |
| ControlCoordinator.StepKeeps | control-server/src/wps_control_server/jobs.py:230-269 | every step of the coordinator, and every call beside it, keeps the invariant |
| ControlCoordinator.ResubmissionFindsTheJob | control-server/src/wps_control_server/jobs.py:68-77 | a request id finds its first job for ever, and another payload is refused |
| ControlCoordinator.ActiveExactly | control-server/src/wps_control_server/jobs.py:170-175 | the active jobs are the executed one and those left behind; at most one if and only if none was left, or one and none is executed |
| ControlCoordinator.LeftOnlyBeforePlanning | control-server/src/wps_control_server/jobs.py:240-244 | a job is left behind exactly when its cancellation falls between the look at its token and the planning stage |
| ControlCoordinator.TwoActive | control-server/src/wps_control_server/jobs.py:240-244 | a run with two active jobs |
| ControlCoordinator.TimeoutIsNeverShown | control-server/src/wps_control_server/jobs.py:138-146 | in no run does a job show the error of a stage timeout; a job whose stage timed out ends as cancelled |
| PreviewComments.Fingerprint | packages/wps-adapter/src/preview-batches.ts:31-42 | the loops, the sort and the join give the string that stands for the comments without the excluded ones, counted by signature |
| PreviewFingerprint.SameCommentsSameFingerprint | packages/wps-adapter/src/preview-batches.ts:42 | equal multisets give equal strings, whatever the signatures contain |
| PreviewFingerprint.LessExactly | packages/wps-adapter/src/preview-batches.ts:42 | the order of the sort: proper prefix, or smaller at the first difference |
| PreviewFingerprint.AddedIsNoticed | packages/wps-adapter/src/preview-batches.ts:42 | more comments give another string, whatever the signatures contain |
| PreviewFingerprint.GuardsExactly | packages/wps-adapter/src/preview-batches.ts:42 | every change of the stored comments changes the string if and only if there is none, or a single one that is not two signatures joined in order |
| PreviewFingerprint.NoticedExactly | packages/wps-adapter/src/preview-batches.ts:131-134 | the same of the stored string and the multisets the session compares |
| PreviewFingerprint.SeparatorHidesChange | packages/wps-adapter/src/preview-batches.ts:42 | two comments and one comment with the same string |
| PreviewFingerprint.FingerprintTells | packages/wps-adapter/src/preview-batches.ts:42 | between comments without the separator, equal strings are equal multisets |
| PreviewComments.Available | packages/wps-adapter/src/preview-batches.ts:103-110 | per signature the document's comments in order |
| PreviewComments.Rebind | packages/wps-adapter/src/preview-batches.ts:103-119 | finds distinct comments with the session's signatures, all of them if and only if the document still has them by count |
| PreviewSession.PreviewService.Apply | packages/wps-adapter/src/preview-batches.ts:52-83 | which error is returned when, and what every call leaves in the document and the session, failed batches and unrecorded comments included |
| PreviewSession.PreviewService.AddItems | packages/wps-adapter/src/preview-batches.ts:59-81 | the loop over the items up to the first refusal |
| PreviewSession.AddedExactly | packages/wps-adapter/src/preview-batches.ts:59-81 | recorded are the comments of the items before the first failure, in order; left behind is the one comment of a failure that came after it |
| PreviewSession.PreviewService.Clear | packages/wps-adapter/src/preview-batches.ts:85-137 | for any comments: the search fails exactly when one of the session's is missing, the check exactly when the strings differ, and only the session's last comments go; when nobody else changed them, exactly the unrecorded comments make it fail |
| PreviewSession.PreviewService.ClearBatch | packages/wps-adapter/src/preview-batches.ts:103-137 | one batch of the clean-up |
| PreviewSession.PreviewService.DeleteLast | packages/wps-adapter/src/preview-batches.ts:120-130 | the deletion loop, every found comment still there when it is deleted |
| PreviewSession.PreviewService.ClearAll | packages/wps-adapter/src/host-bridge.ts:98-116 | the loop terminates; when every deletion works, which error it ends with is decided by the comments at the start; success leaves exactly the comments that are not the session's, counted by signature |
| PreviewSession.StrayBlocksCleanup | packages/wps-adapter/src/preview-batches.ts:76-134 | a new session loses one comment and its clean-up then fails |
| DocumentRepair.NoBrokenLeft | control-server/src/wps_control_server/document_repair.py:92-120 | the filtered tree refers to no broken id |
| DocumentRepair.KeptOf | control-server/src/wps_control_server/document_repair.py:109-119 | what stays of a list of children: neither doomed drawings nor emptied runs, each repaired |
| DocumentRepair.RunGoesExactly | control-server/src/wps_control_server/document_repair.py:115-119 | a run without runs in it goes if and only if it holds doomed drawings, and nothing else but run properties |
| DocumentRepair.ContentStays | control-server/src/wps_control_server/document_repair.py:92-120 | nothing else goes: every element outside the doomed drawings that is no run and no run property is still there, in order, with its text and what follows it |
| DocumentRepair.WholeStaysWhole | control-server/src/wps_control_server/document_repair.py:92-120 | a tree without broken images is left as it is |
| DocumentRepair.RepairedOnce | control-server/src/wps_control_server/document_repair.py:92-120 | repairing twice changes nothing more |
| DocumentSurgery.FindDrawings | control-server/src/wps_control_server/document_repair.py:93-106 | the climbing loops find for every broken image its nearest drawing, and fail exactly when one has none |
| DocumentSurgery.DoomedByClimbing | control-server/src/wps_control_server/document_repair.py:100-104 | climbing through the parent map and looking down the tree agree on the drawings to remove |
| DocumentSurgery.OnlyPropertiesLeft | control-server/src/wps_control_server/document_repair.py:115-119 | the test on the live child list succeeds exactly when the filter empties the run with this drawing |
| DocumentSurgery.DetachDrawing | control-server/src/wps_control_server/document_repair.py:109-119 | one drawing and perhaps its run leave the live child lists |
| DocumentSurgery.RemoveBrokenDrawings | control-server/src/wps_control_server/document_repair.py:92-120 | succeeds exactly under the three checks, and then the serialized document is the recursive filter of the parsed one |
| DocumentSurgery.RepairIsComplete | control-server/src/wps_control_server/document_repair.py:92-120 | after success nothing broken is left and nothing more to do |
| DocumentParse.ParseFits | control-server/src/wps_control_server/document_repair.py:93-94 | every tree parses into elements in document order that render back to it |
| DocumentParse.Repair | control-server/src/wps_control_server/document_repair.py:92-120 | for every tree the result is the recursive filter, texts and tails included |
| DocumentParse.ApplyDrawings | control-server/src/wps_control_server/document_repair.py:296-300 | the caller accepts the repair if and only if, besides the three checks, no two broken images share a drawing |
| DocumentSurgery.OrderCounts | control-server/src/wps_control_server/document_repair.py:107-114 | as many drawings are removed as images are broken exactly when each has its own |
| CommandLine.QuoteArgument | packages/recognition-client/src/index.ts:257-276 | the loop over code points computes the quoted form |
| CommandLine.QuotedWhenNeeded | packages/recognition-client/src/index.ts:257-260 | an argument stays as it is if and only if it is not empty and has neither white space nor a quote |
| CommandLine.EscapedParses | packages/recognition-client/src/index.ts:260-275 | inside quotes the runtime reads back the value, held-back backslashes included |
| CommandLine.ParsesBack | packages/recognition-client/src/index.ts:257-276 | quoting any list, joining and parsing returns the list |
| CommandLine.ReceivedExactly | packages/recognition-client/src/index.ts:257-276 | the process receives exactly the arguments if and only if none contains a NUL |
| LogWriter.Trim | wps_logging.py:628-637 | a trim keeps one contiguous run of whole lines ending at the newest line that fits, as long as the budget allows |
| LogWriter.WithinBound | wps_logging.py:616-638 | after a write the log is within its bound if and only if the untrimmed text or the notice itself is |
| LogWriter.WriteLines | wps_logging.py:616-638 | appended, or notice plus the kept run; a write that fails leaves the old text, or a part of the new one |
| LogWriter.UnifiedLogWriter.Append | wps_logging.py:585-601 | one call's pass, the remembered fingerprint and the file, throwing calls and failing writes included |
| LogWriter.SessionWithoutRepeats | wps_logging.py:585-601 | events let through never repeat a fingerprint in a row; without throwing calls they are the events written |
| LogWriter.NothingLost | wps_logging.py:585-601 | without throwing calls exactly the loud events that differ from the loud event before them get through, in order |
| LogWriter.SafeToContinue | wps_logging.py:593-598 | no next call can write a repeat if and only if the remembered fingerprint is the last one written |
| LogWriter.ThrownCallRepeats | wps_logging.py:593-598 | a session whose throwing call makes a repeat |
| LogLine.NormalizeFits | wps_logging.py:335-341 | after redaction no text holds a separator, whatever it contained |
| LogLine.LineExactly | wps_logging.py:497-529 | the whole line of an error event, written out: the command's name before a message that does not say it, and the fields that are not empty in their order |
| LogLine.ReadsBack | wps_logging.py:497-561 | parsing a formatted error event gives all its fields back if and only if the component has no "]" |
| LogReading.ReadLogEvents | wps_logging.py:564-572 | the reader's loop over the lines of the file |
| LogReading.LogReadsBack | wps_logging.py:335-341 | reading a log of error events gives them all, in order, if and only if no text the reader needs has a line break of any kind, no component a "]", and nothing the technical detail puts on later lines looks like an event |
| LogReading.EventAlone | wps_logging.py:564-572 | one event's lines give at least one entry when component and message survive, and exactly the event when it is whole |
| LogReading.SeparatedBreaks | wps_logging.py:335-341 | which line breaks redaction leaves in a text |
| LogReading.SeparatorLosesCodes | wps_logging.py:564-572 | an event with U+2028 in its reason is not read back |
| AdaptiveBatch.PercentileBetween | apps/classified-offline/src/pipeline-worker.ts:38-45 | a percentile lies between two measured values |
| AdaptiveSizes.MedianExactly | apps/classified-offline/src/pipeline-worker.ts:38-45 | the percentile the controller uses is the median: the middle value or the mean of the two middle ones |
| AdaptiveBatch.AlwaysWithin | apps/classified-offline/src/pipeline-worker.ts:48-79 | over every sequence of durations the size and the remembered size stay within bounds |
| AdaptiveBatch.IsolatedOutliersForgotten | apps/classified-offline/src/pipeline-worker.ts:56-66 | one or two outliers in a row leave size and samples as if they had not happened |
| AdaptiveBatch.ThreeOutliersReset | apps/classified-offline/src/pipeline-worker.ts:58 | three outliers in a row give the minimum and forget the remembered size |
| AdaptiveSizes.SamplesAre | apps/classified-offline/src/pipeline-worker.ts:54-69 | over every run the samples are the last eight durations that were no outliers |
| AdaptiveSizes.FastStreakRaises | apps/classified-offline/src/pipeline-worker.ts:54-78 | a run of fast medians raises the size by one for every three, up to the maximum |
| AdaptiveSizes.SlowStreakHalves | apps/classified-offline/src/pipeline-worker.ts:54-78 | a run of slow medians halves the size for every two, down to the minimum |
| AdaptiveSizes.MiddleStreakStays | apps/classified-offline/src/pipeline-worker.ts:54-78 | medians in between leave the size alone and end both streaks |
| AdaptiveSizes.OutlierStep | apps/classified-offline/src/pipeline-worker.ts:56-66 | an outlier takes one off the size, keeps the samples, ends both streaks and remembers the size to return to |
| AdaptiveBatch.AdaptiveBatchController.Record | apps/classified-offline/src/pipeline-worker.ts:54-78 | the controller's update, within bounds |
| SnapshotLoop.ReadParagraphBatch | packages/wps-adapter/src/host-bridge.ts:180-215 | the host answers with the asked paragraphs that exist |
| SnapshotLoop.AnswerExactly | packages/wps-adapter/src/host-bridge.ts:180-215 | which questions are refused, and exactly which paragraphs come back |
| SnapshotLoop.BuildSnapshot | apps/classified-offline/src/pipeline-worker.ts:324-339 | terminates for every host, asks only for what the host allows, and collects exactly paragraphs 0..n-1 from a host that obeys |
| SnapshotLoop.HostObeys | packages/wps-adapter/src/host-bridge.ts:180-215 | the host obeys in that sense for every document |

## Left out

- The editor itself, saving, the file system, HTTP, subprocesses and clocks are steps with stated effects.
- StructureHost.BatchReachesPlan: needs distinct paragraph numbers, which the planner guarantees and the host does not check; StructureDuplicates.DuplicatesExactly shows that this is exactly what is needed.
- StructurePlanFits.NormalizationSucceeds: excludes plans above the host's limit of 200 operations, which the host refuses.
- HostText.AlignedRange: canonical offsets inside a multi-character NFKC piece round up to the end of the raw unit, so exact slices hold at piece boundaries only.
- FormatTransaction.FormatHost.RollbackJournal: a restore that throws is taken to have done nothing itself.
- FormatWrites.PageReads: numbers are real, so neither the rounding of unit conversions nor the tolerance of the readback is modelled; that a write did not take is a step of the run instead.
- FormatWorker.ApplyFormat: a worker that gives up waiting while a batch still runs in the host is not modelled, nor are fonts of partly overlapping character ranges; a range whose characters differ in a font property reads as one value.
- FormatSafety.SafeAtExactly: speaks, like SafeExactly, of the runs in which no restore throws; FormatWorker.EndsWellExactly sets the others apart.
- RecognitionMapping.MapPlan: paragraphs of headers and footers, which the snapshots here do not hold; confidence, section and the names of targets are left out.
- BrokerClaims.LaunchedOnce: recovery of one job directory, process start plus `launched.json`, and the host's removal of the files are one step each; I/O errors are modelled only where a step fails as a whole.
- BrokerRecovery.CrashExactly: speaks of the time until the host consumes an outcome; what the host does after its own time-out is outside.
- Broker status file, heartbeats, runtime manifest and hash checks, and broker liveness.
- BrokerTerminal.EndsTruthfully: one broker holds the claim; the host's removal of the files is one step, and a result the host cannot use makes its probe throw without settling.
- Job-store liveness, what a stage still does in its thread after its timeout, and the HTTP layer of the control server.
- ControlCoordinator.TwoActive: the leftover job stays "recognizing" for good; what clients do about it is outside.
- PreviewSession.PreviewService.Apply: a comment is looked up by position when `Comments.Add` returns none; that path is left out, and so are changes the user makes while a call runs; between calls the comments may change in any way.
- PreviewSession.PreviewService.Clear: comments are restored by signature, not by identity, when a user's comment has the signature of a preview.
- DocumentRepair.NoBrokenLeft: concerns image references in drawings; attributes other than the image reference, the relationship part, the package-wide check (document_repair.py:150-195) and backup and restore of the file are left out.
- LogLine.ReadsBack: concerns error events without summary lines; the other event format, which drops fields after six, is left out, and digits are the ASCII ones.
- LogWriter.UnifiedLogWriter.Append: the counter of suppressed events is not modelled; the events of a write that stops half-way count as not written.
- CommandLine.ReceivedExactly: the program name, to which the runtime applies other rules, is not an argument here.
- AdaptiveBatch.AdaptiveBatchController.Record: durations are real numbers, so rounding of the median is not modelled.
- Ribbon, task pane, bootstrap, health check, debug server, flat field validators and the two command builders: plumbing.

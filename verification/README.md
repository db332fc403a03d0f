# Verification of the class assessment system

Dafny models of the parts of the system where a mistake is hard to see: how a
batch of materials is composed by an unreliable model and survives a killed
worker, how answers are shown while they are still being written, how the tools
of an agent decide what may be cited, how a self-governing class decides, how
points become scores, ranks and awards, and how migrations and samples are
drawn. Each file names the source it follows; `dafny verify dfyconfig.toml`
checks everything.

How the models are built:

- Code that changes things step by step is a class or a method with loops; its
  contract equates the new state with a function of the old one, and the
  theorems are about that function, over all inputs, runs or interleavings.
- A database transaction is one step. A worker process carries the number of
  transactions and model calls it lives for, so it may die before any of them;
  the lock of a batch means one worker at a time. A lost database connection, an
  error of a transaction and an interrupted wait between retries all count as the
  end of the process.
- The language model, file converters, submitted scripts, clocks, random draws
  and Unicode tables are parameters: functions or values that the theorems
  quantify over. Composition theorems about several processes fix the
  observations and the outcome of each chunk, as the stored results do.
- Beside the laws over whole runs, operations have laws that say what becomes of one
  file, opinion, vote, claim, submission or batch, told without the functions that
  compute it (`ExecutorReplies`, `GovernanceCaseVotes`, `ProposalTerms`,
  `CandidateOutcome`, `EvidenceLaws`, `SchemeLaws`, `CategorySubmissions`, `ShownScores`, `AwardOrder`,
  `BatchMoves`, `RunAccount`, `Publishing`, `DraftLaws`, `UpgradeEnds`, `CatalogNames`, `SampleOrder`,
  `Utf8Laws`, `JsonLiterals`).
- Points are whole thousandths; weights, quantities and confidences are reals.
- Strings that are read byte by byte are byte sequences: string literals follow
  section 7 of RFC 8259 and byte validity section 4 of RFC 3629.

Where the code differs from what one might expect, the model follows the code and
says exactly when the expected property holds:

- A stop request ends the composition loop at the first incomplete row, so
  results already stored for later chunks are not delivered (`Resume.StopDelivers`,
  `Resume.StopSkipsStoredResults`); the comment beside it says finished chunks are
  handed over as usual.
- A cut between the halves of an escaped surrogate pair shows U+FFFD for a moment
  (`PartialField.TextGrows`).
- The preview pairs the n-th title with the n-th note that is not blank, so a blank
  note shifts later ones (`DraftPreview.PreviewOfDraft`).
- A second verification may add review reasons, and keeps the rest unless an edited
  score was cleared (`CandidateGate.VerifyTwice`).
- Closing an applied case can send it back to deliberation
  (`GovernanceCaseHistory.CloseReopensBallotRuling`), and a blocked panel that is
  enlarged can be stuck for good (`GovernanceCaseHistory.BlockedPanelIsStuck`).
- A category total can depend on the order of submissions, and a raise can cost
  points, when groups disagree (`CategoryChoices.WhenOrderMatters`,
  `CategoryRaise.RaiseExactly`).
- A cap group with a blank key is shared in the demo and ignored by the server, which
  also visits exclusive groups in any order (`ServerScore.SameEntries`,
  `ServerScore.ServerScoresAsDemo`).
- Viewing a batch reads it without a lock and may then overwrite `complete` or
  `canceled` with `expired`; the maintenance sweep also expires canceled batches, so
  of the two only `complete` is final where transactions are atomic
  (`BatchLifecycle.HowClosedIsLeft`, `BatchLifecycle.FinalIsFinal`).
- The streaming readers look for one spelling of a name and miss a member whose
  name is written with an escape (`DocumentNames.EscapedNamesAreMissed`).
- A NUL in a title or a date can glue two activities together
  (`Chunking.SameActivity`, `Chunking.NulGluesActivities`). The worker plans from
  stored observations, and stored JSON holds no NUL, so such input reaches planning
  only where a batch is composed in memory.
- With a reply limit of 4096 bytes or less a file counts as shown, and can be cited,
  though no text of it fits (`ExecutorHistory.NoRoomNoText`).
- Composing a single chunk in memory keeps the ids the model chose, while the
  worker renumbers them (`Delivery.Batched`).

## Model

| member | source | states |
|---|---|---|
| `Chunking.SameActivity` | backend/internal/aiassist/aiassist.go:360-379 | Two observations get one key exactly when they share the normalised title and trimmed date, or are the same untitled page of one asset, or a NUL in a title or a date makes one look like the other. |
| `Chunking.PlainIsNotConfused` | backend/internal/aiassist/aiassist.go:360-379 | Without a NUL in titles and dates nothing unrelated is glued together, whatever the asset ids. |
| `Chunking.NulGluesActivities` | backend/internal/aiassist/aiassist.go:360-379 | With one, a titled certificate gets the key of an untitled page. Stored observations come from a database that keeps no NUL in JSON, so only the composition in memory can meet such input. |
| `Chunking.GroupByActivity` | backend/internal/aiassist/aiassist.go:324-334 | The first loop of planning finds the activities in order of first appearance and each activity's observations in their own order. |
| `Chunking.PlanChunks` | backend/internal/aiassist/aiassist.go:320-355 | The two loops produce the plan the laws below are about, for every list of observations. |
| `Chunking.PackGroups` | backend/internal/aiassist/aiassist.go:336-354 | Filling the current chunk until the next group overflows it is greedy packing of whole groups. |
| `Chunking.PlanPartitions` | backend/internal/aiassist/aiassist.go:320-355 | Laid end to end the chunks hold every observation exactly once, each activity whole and contiguous, in feasible runs. |
| `Chunking.PackingIsOptimal` | backend/internal/aiassist/aiassist.go:306-309 | No split of the groups, in order, into runs that respect the limits uses fewer chunks. |
| `Chunking.GreedyStaysAhead` | backend/internal/aiassist/aiassist.go:336-354 | Against any split of any list of groups, packing has used no more runs, and when it has used as many its last one is no longer. |
| `Chunking.ChunkLimits` | backend/internal/aiassist/aiassist.go:336-388 | A chunk of several activities has at most six observations and encodes within the byte limit; a group over a limit is alone. |
| `Chunking.PlanIsStable` | backend/internal/aiassist/aiassist.go:320-355 | Planning the observations again in the order the chunks hold them gives the same chunks. |
| `Chunking.GroupsArePartition` | backend/internal/aiassist/aiassist.go:326-334 | Grouping loses and repeats no observation. |
| `Drafts.DraftBuilder.MergeDraft` | backend/internal/aiassist/aiassist.go:438-452 | Merging in place appends the renumbered candidates and the warnings, adds usage and duration, and keeps the first model named. |
| `Drafts.MergedDraft` | backend/internal/aiassist/aiassist.go:436-452 | A merged draft keeps every candidate and warning in order, adds up usage and duration and names the first model. |
| `Drafts.MergedIds` | backend/internal/aiassist/aiassist.go:436-441 | The ids of a merged draft are candidate-1 to candidate-N and never collide. |
| `Drafts.MergeAppend` | backend/internal/aiassist/aiassist.go:438-452 | Merging chunk by chunk equals merging two partial results: it does not matter where the list of drafts is divided. |
| `Drafts.PostProcess` | backend/internal/aiassist/aiassist.go:522-538 | The loop after a model call grounds and verifies every candidate and fills in missing ids. |
| `Drafts.ProcessedPassesGate` | backend/internal/aiassist/aiassist.go:522-532 | Whatever the model answers, every candidate of a chunk passes the gate and cites only assets of that chunk. |
| `DraftLaws.ProcessedCandidates` | backend/internal/aiassist/aiassist.go:522-538 | Every candidate is answered for in its place: claim, references, place in the scheme and reasons are what the laws on the gate say of model output. |
| `DraftLaws.MergedCandidates` | backend/internal/aiassist/aiassist.go:436-447 | Merging changes nothing of a candidate but its id, which counts on from one. |
| `DraftLaws.UsageAddsUp` | backend/internal/aiassist/aiassist.go:442-452 | Each part of the usage, and the duration, is added up for itself. |
| `DraftLaws.ModelIsFirstNamed` | backend/internal/aiassist/aiassist.go:438-452 | The first draft that names a model decides which is named. |
| `Composition.RetryCall` | backend/internal/aijob/worker.go:1129-1146 | The loop returns the reply of the one attempt where the call stops: every attempt before it failed with an error that may pass, and it answers, fails for good or is the third. |
| `Composition.RetriedStopsOnce` | backend/internal/aijob/worker.go:1129-1146 | Exactly one attempt is where the call stops, and its reply is what the call comes to. |
| `Composition.OutcomeIsFirstAnswer` | backend/internal/aijob/worker.go:1129-1146 | A chunk contributes a draft exactly when one of three attempts answers with it and all attempts before failed with errors that may pass. |
| `Composition.FailureIsFinal` | backend/internal/aijob/worker.go:487-492 | A chunk fails exactly when an attempt that is reached fails for good, or the third fails. |
| `Composition.Worker.PlanComposeChunks` | backend/internal/aijob/worker.go:518-581 | The table after planning holds exactly the rows of the plan, or is untouched when the process dies before. |
| `Composition.Worker.MarkComposeChunk` | backend/internal/aijob/worker.go:583-597 | Marking a chunk changes its status and nothing else. |
| `Composition.Worker.FinishComposeChunk` | backend/internal/aijob/worker.go:599-622 | One transaction records the draft of a chunk, or that it failed without one. |
| `Composition.Worker.RunChunk` | backend/internal/aijob/worker.go:467-504 | Marking, sending and recording a chunk, with death possible before each. |
| `Composition.Worker.VisitChunk` | backend/internal/aijob/worker.go:444-505 | A complete row is taken as stored; otherwise cancellation, then a stop request, then the call. |
| `Composition.Worker.ComposeInChunks` | backend/internal/aijob/worker.go:433-508 | The whole loop over the table does what the run the theorems are about does, wherever the process dies. |
| `Resume.PlanLeavesNothingStale` | backend/internal/aijob/worker.go:552-581 | After planning the rows are exactly 0..n-1 with the assets and pages of the current plan, and a result survives only under the same assets and pages; a page that was read again with other text keeps it. |
| `Resume.ResumeEqualsUninterrupted` | backend/internal/aijob/worker.go:433-512 | After any number of killed, canceled or stopped processes, a run that reaches the end publishes what one uninterrupted run would: candidates, ids, warnings, usage, duration, model and failure counts. |
| `Resume.LoopDelivers` | backend/internal/aijob/worker.go:444-507 | A running process has merged exactly what the chunks so far are worth: stored drafts, else outcomes. |
| `Resume.LivesKeepContribution` | backend/internal/aijob/worker.go:444-507 | No sequence of processes changes what a chunk is worth to the next one. |
| `Resume.LongLifeFinishes` | backend/internal/aijob/worker.go:444-508 | A process that lives for three events a chunk and sees neither cancellation nor stop reaches the end. |
| `RunAccount.RunningIsOnItsWay` | backend/internal/aijob/worker.go:444-507 | A process that still runs after n chunks has sent every one of them without a stored result, once and in order, has recorded what came of each, left the others as planned, and spent three steps on each chunk sent. |
| `RunAccount.HowRunsEnd` | backend/internal/aijob/worker.go:444-507 | Any other process ended at a chunk without a stored result, canceled, stopped or killed there, with the work before it done and everything behind it untouched. |
| `RunAccount.LifeItTakes` | backend/internal/aijob/worker.go:433-508 | Undisturbed, a process reaches the end exactly when it lives for planning and three steps for each chunk without a stored result. |
| `Resume.SentOnlyIncomplete` | backend/internal/aijob/worker.go:446-450 | A process sends chunks in ascending order, each at most once, none with a stored result. |
| `Resume.CompleteNeverResent` | backend/internal/aijob/worker.go:446-450 | Once a chunk is committed as complete no later process sends it to the model again. |
| `Resume.EveryObservationAccounted` | backend/internal/aijob/worker.go:487-505 | Observations delivered and observations reported as failed add up to the batch. |
| `Resume.StopDelivers` | backend/internal/aijob/worker.go:459-466 | A run is stopped at the first row without a stored result where the request is seen and delivers the complete rows before; that is all of them exactly when the results the table holds for later chunks have no candidates or warnings, no usage or duration in total, and name no model that is not named yet. |
| `Resume.StopSkipsStoredResults` | backend/internal/aijob/worker.go:462-466 | A concrete table where a stop leaves a stored later result undelivered. |
| `Publishing.PublishDraft` | backend/internal/aijob/worker.go:341-366 | The end of processing a batch puts up the draft with what is to be said about it, or nothing without candidates. |
| `Publishing.NotesTell` | backend/internal/aijob/worker.go:358-366 | What is said: how many observations are missing, if any; that the run was stopped, if it was; how many images failed before, if any; and nothing else. |
| `Publishing.WholeRunPublishes` | backend/internal/aijob/worker.go:336-366 | A run that reaches the end publishes the candidates of what its chunks are worth, in order and numbered, unless there are none; and tells the number of observations that no chunk delivered exactly when there are any. |
| `Publishing.ChunksAddUp` | backend/internal/aijob/worker.go:444-507 | Every chunk is delivered or counted as failed. |
| `Delivery.ComposerIsSound` | backend/internal/aiassist/aiassist.go:522-532 | No model makes the composer cite an asset outside the chunk it was asked about. |
| `Delivery.HistoryCites` | backend/internal/aijob/worker.go:518-622 | Over any history of materials, models and processes, stored results cite only the assets of their row. |
| `Delivery.DeliversOnlyCurrentAssets` | backend/internal/aijob/worker.go:552-581 | Whatever earlier sessions worked on, a delivered draft cites only assets of the current observations. |
| `Delivery.ComposeBatch` | backend/internal/aiassist/aiassist.go:391-434 | The in-memory loop computes the batch result compared with the worker below. |
| `Delivery.BatchAgreesWithWorker` | backend/internal/aiassist/aiassist.go:391-434 | With two chunks or more and nothing to retry, composing in memory and over the table agree on everything but repeated or blank warnings. |
| `CandidateGate.CleanStrings` | backend/internal/aiassist/aiassist.go:993-1002 | The compaction in place leaves the trimmed, non-blank, first occurrences at the front of the slice. |
| `CandidateGate.FilterAssets` | backend/internal/aiassist/aiassist.go:768-783 | The reference loop keeps the known, distinct references and notices whether one was unknown. |
| `CandidateGate.VerifyCandidate` | backend/internal/aiassist/aiassist.go:753-887 | Verification with its loops computes the function the gate theorems are about. |
| `CandidateGate.CleanIsClean` | backend/internal/aiassist/aiassist.go:993-1002 | Cleaned lists are trimmed, non-blank and free of repetitions. |
| `CandidateGate.KeptAssetsSound` | backend/internal/aiassist/aiassist.go:768-783 | The references kept are allowed, non-blank, trimmed and distinct. |
| `CandidateGate.ScoreCandidateFacts` | backend/internal/aiassist/aiassist.go:810-885 | An expected score is absent or the rule's own score of the claim that is kept. |
| `CandidateGate.VerifyGates` | backend/internal/aiassist/aiassist.go:753-887 | A verified candidate is unclassified or in the scheme, cites distinct allowed assets, and has no expected score or the rule's. |
| `CandidateOutcome.VerifiedClaim` | backend/internal/aiassist/aiassist.go:787-886 | What becomes of the claim, by kind of rule. A tier keeps its option; its score is the option's own for model output or where none was given, else the edited one, kept and worth its points exactly when they lie between 0 and the best option. A quantity or a score of one's own is kept exactly when the rule accepts it, and is worth what the rule gives. An unclassified candidate keeps its claim without an expected score. |
| `CandidateOutcome.TierScored` | backend/internal/aiassist/aiassist.go:826-862 | What becomes of the claim of a tier, in terms of the first option under its caption and of the best option. |
| `CandidateOutcome.VerifiedFields` | backend/internal/aiassist/aiassist.go:753-812 | Texts are trimmed, the confidence is brought between 0 and 1, the place in the scheme is kept exactly when it exists, and then with the alternatives that exist. |
| `CandidateOutcome.VerifiedReasons` | backend/internal/aiassist/aiassist.go:753-886 | Exactly which reasons for a review are found besides those given, and that the mark for review is set when there is one. |
| `CandidateOutcome.AssetMembers` | backend/internal/aiassist/aiassist.go:768-783 | The references kept are exactly those to allowed materials, trimmed. |
| `CandidateOutcome.CleanMembers` | backend/internal/aiassist/aiassist.go:993-1002 | A cleaned list holds exactly the values that are not blank, trimmed. |
| `CandidateOutcome.SelectedIsChosen` | backend/internal/scheme/score.go:33-43 | The selected option is the first with the caption. |
| `CandidateOutcome.MaxScoreIsHighest` | backend/internal/scheme/score.go:52-55 | The largest score is that of some option, or 0, and none is higher. |
| `CandidateGate.VerifyTwice` | backend/internal/aiassist/aiassist.go:749-901 | A second verification changes only review reasons exactly when no edited score was cleared whose option has an acceptable one; for model output always. |
| `CategoryEvidence.OptionEvidenceContext` | backend/internal/aiassist/aiassist.go:693-729 | The loops find the text around the first occurrence of a quote. |
| `CategoryEvidence.StatementIsUnique` | backend/internal/aiassist/aiassist.go:693-729 | That text is the only stretch that runs from the nearest delimiter or line end before the quote to the nearest after. |
| `CategoryEvidence.UncertainCategoryEvidence` | backend/internal/aiassist/aiassist.go:731-738 | The loop decides whether a statement holds a marker of doubt. |
| `CategoryEvidence.TrimOfBlankNamesNothing` | backend/internal/aiassist/aiassist.go:567-570 | An option that trimming leaves blank names no category. |
| `CategoryEvidence.SpecificActivity` | backend/internal/aiassist/aiassist.go:671-689 | The loop over generic words decides whether a name identifies an event: neither the item nor a category, and two characters left of it. |
| `CategoryEvidence.ValidOptionEvidence` | backend/internal/aiassist/aiassist.go:611-670 | The loops over pages and category codes decide what the two laws below are about. |
| `CategoryEvidence.GroundSchoolCategory` | backend/internal/aiassist/aiassist.go:550-587 | Grounding collects the categories of the options and then asks for evidence. |
| `CategoryEvidence.ValidIsEvidenced` | backend/internal/aiassist/aiassist.go:611-670 | The gate lets a category pass exactly when its event is seen on a cited page and some statement of the note or of the last reading of a cited page, around the first occurrence of the quote, holds no marker of doubt and no other category. |
| `CategoryEvidence.GroundedTier` | backend/internal/aiassist/aiassist.go:550-587 | A candidate that names a category is left alone exactly when the category is evidenced; otherwise option, claimed score, expected score and evidence are gone and a review is asked for. |
| `CategoryEvidence.SchoolOptionHasEvidence` | backend/internal/aiassist/aiassist.go:550-671 | A school category survives grounding and verification only with an event seen on a cited page and a quote naming event and category, inside a statement of its source in which no marker of doubt and no other category occurs. |
| `EvidenceLaws.GroundOutcome` | backend/internal/aiassist/aiassist.go:550-587 | What becomes of a candidate: without categories it is left alone; without an option it is marked for review; an option that names no category of the item is left to the gate; and one that does stays exactly when it is evidenced, and otherwise loses option, score and evidence. |
| `EvidenceLaws.WidthDoesNotMatter` | backend/internal/aiassist/aiassist.go:599-609 | It makes no difference whether characters are written wide. |
| `EvidenceLaws.BlanksDoNotMatter` | backend/internal/aiassist/aiassist.go:599-609 | Blanks make no difference, wherever they stand. |
| `EvidenceLaws.TierMeans` | backend/internal/aiassist/aiassist.go:542-542 | A category is named where a letter with digits stands before the word for category and behind nothing that would belong to the same word. |
| `EvidenceLaws.CaptionNames` | backend/internal/aiassist/aiassist.go:589-595 | A caption names the category that it mentions first, or none. |
| `EvidenceLaws.NamesOnlyMeans` | backend/internal/aiassist/aiassist.go:645-657 | A statement mentions this category only, or the directory A beside it where A is no category itself. |
| `EvidenceLaws.QuoteNamesMeans` | backend/internal/aiassist/aiassist.go:658-668 | A quotation mentions this category, and none of the others of the item. |
| `EvidenceLaws.EventsStandOut` | backend/internal/aiassist/aiassist.go:673-691 | A name that holds no category and no generic word identifies an event exactly when two characters are left inside its marks and it is not the name of the item or of a category. |
| `EvidenceLaws.CodesAreTakenOut` | backend/internal/aiassist/aiassist.go:680-680 | Category codes are taken out from the left, with the word for category. |
| `EvidenceLaws.WordIsTakenOut` | backend/internal/aiassist/aiassist.go:681-690 | A generic word is taken out at its first occurrence, and then behind it. |
| `EvidenceLaws.DelimitersAndPages` | backend/internal/aiassist/aiassist.go:622-628 | Which pages a candidate cites, and which marks end a sentence. |
| `Scheme.SelectedWithinMax` | backend/internal/scheme/score.go:33-60 | A selected option never scores above the largest option, so a tier's own score is never out of range from above. |
| `SchemeLaws.NewPointsIsNearest` | backend/internal/scheme/score.go:14-14 | Points are the nearest thousandth, halves away from zero. |
| `SchemeLaws.NearestIsNewPoints` | backend/internal/scheme/score.go:14-14 | A whole number of thousandths that is less than half of one away is what the points are. |
| `SchemeLaws.PointsRoundTrip` | backend/internal/scheme/score.go:14-15 | Points survive being shown as a number and read back. |
| `SchemeLaws.PerUnitScore` | backend/internal/scheme/score.go:21-32 | A quantity is worth its rate, rounded, and never more than the cap. |
| `SchemeLaws.MoreIsNotLess` | backend/internal/scheme/score.go:21-32 | More units are never worth less. |
| `SchemeLaws.ThresholdScore` | backend/internal/scheme/score.go:76-86 | Reaching the minimum earns the award, anything below it nothing. |
| `SchemeLaws.FoundIsOffered` | backend/internal/aiassist/aiassist.go:910-930 | An item is found exactly when the category of its key offers it: as an item, as what a base item lets students claim, or as the item for everything else. |
| `SchemeLaws.KnownIsOffered` | backend/internal/aiassist/aiassist.go:932-939 | A key is known in the scheme exactly when some category offers an item under it. |
| `Utf8.EncodeDecode` | backend/internal/agentjob/partial.go:109-114 | Every scalar value survives encoding and decoding whatever bytes follow. |
| `Utf8.LongestValidIsLongest` | backend/internal/agentjob/partial.go:109-114 | Dropping bytes until the rest is valid leaves the longest valid prefix. |
| `Utf8Laws.EncodingOrder` | backend/internal/agentjob/partial.go:109-114 | Encodings are ordered as the characters are, which together with `EncodingShape` and `WellFormedIsEncoded` leaves no other encoding. |
| `Utf8Laws.EncodingShape` | backend/internal/agentjob/partial.go:109-114 | How long encodings are and what their bytes look like. |
| `Utf8Laws.WellFormedIsEncoded` | backend/internal/agentjob/partial.go:109-114 | Whatever counts as well formed is the encoding of the character that is read from it. |
| `Utf8Laws.OnlyOneEncoded` | backend/internal/agentjob/partial.go:109-114 | A text begins with the encoding of no character but the one that is read from it. |
| `JsonString.UnquoteBody` | backend/internal/agentjob/partial.go:28-31 | Decoding a printed string body gives exactly the text it stands for, with escapes and surrogate pairs. |
| `JsonString.MeaningOfPrefixes` | backend/internal/agentjob/partial.go:11-13 | Text up to one cut is a prefix of text up to a later one exactly when the cut does not separate two surrogate halves. |
| `JsonLiterals.EscapedIsRead` | backend/internal/agentjob/partial.go:28-31 | Any text written with \u escapes alone, in capitals or not, is read back. |
| `JsonLiterals.ShortEscapesMean` | backend/internal/agentjob/partial.go:28-31 | The eight short escapes and what they stand for. |
| `JsonLiterals.PairsAreCharacters` | backend/internal/agentjob/partial.go:28-31 | Every pair of surrogate halves makes one character beyond the first 65536, each of them by exactly one pair. |
| `JsonLiterals.MarksAreTheirLetters` | backend/internal/agentjob/partial.go:39-75 | Structural marks and blanks are the letters they are said to be. |
| `FieldSearch.ProbesSettled` | backend/internal/agentjob/partial.go:39-61 | A field that is found stays the first found at the same place whatever bytes follow. |
| `FieldSearch.StructuralPosition` | backend/internal/agentjob/partial.go:63-75 | The backward walk decides whether the last non-blank byte before opens a member. |
| `FieldSearch.TryNext` | backend/internal/agentjob/partial.go:41-60 | One round of the search, jumping behind a whole failed key, misses no field. |
| `PartialField.TrimIncompleteRune` | backend/internal/agentjob/partial.go:109-114 | The loop leaves the longest valid prefix. |
| `PartialField.ScanJsonString` | backend/internal/agentjob/partial.go:80-107 | The scanner finds the closing quote or the last complete character or escape. |
| `PartialField.FieldValueStart` | backend/internal/agentjob/partial.go:39-61 | The search finds the first field of the name with a string value. |
| `PartialField.ReadPartialField` | backend/internal/agentjob/partial.go:19-34 | The reader returns the text of the raw body the theorems are about. |
| `PartialField.RawBodyGrows` | backend/internal/agentjob/partial.go:19-107 | For any buffer, JSON or not, the raw body read from a prefix is a prefix of the one read later. |
| `PartialField.TextAtCut` | backend/internal/agentjob/partial.go:77-107 | At any cut the text is that of the characters that have arrived whole. |
| `PartialField.TextGrows` | backend/internal/agentjob/partial.go:19-114 | Decoded text only grows exactly when the earlier cut does not fall between surrogate halves. |
| `Preview.ReadComposedStrings` | backend/internal/aiassist/preview.go:47-81 | The loop collects the finished, non-blank values of the field, at most forty. |
| `Preview.ReadComposedPreview` | backend/internal/aiassist/preview.go:33-45 | Titles and notes are collected and paired line by line. |
| `Preview.ComposedStringsGrow` | backend/internal/aiassist/preview.go:21-81 | Growing the buffer only appends to the titles. |
| `Preview.ComposedPreviewGrows` | backend/internal/aiassist/preview.go:33-81 | Growing the buffer only appends lines or completes lines whose note had not arrived. |
| `JsonDocument.StringsOfDocument` | backend/internal/aiassist/preview.go:47-81 | On a whole document the preview finds exactly the fields whose name is spelled letter for letter, in document order, never text inside a string. |
| `JsonDocument.PartialTextOfDocument` | backend/internal/agentjob/partial.go:19-61 | On a whole document the reader returns the first member with that spelling of the name and a string value, in document order. |
| `JsonDocument.StreamedText` | backend/internal/agentjob/partial.go:6-34 | Streaming a document, earlier text of the field is a prefix of later text exactly when no surrogate pair is cut; without a field of that spelling nothing is shown. |
| `DocumentNames.Spelling` | backend/internal/agentjob/partial.go:40-61 | A name is spelled letter for letter exactly when it decodes to the name and holds no escape. |
| `DocumentNames.EscapedNamesAreMissed` | backend/internal/agentjob/partial.go:40-61 | The fields of the decoded name are those the readers find and just those whose name is written with an escape, so the readers find all exactly when no name is. |
| `DocumentNames.FirstMeantField` | backend/internal/agentjob/partial.go:19-61 | Without escaped names the reader returns the first member that decodes to the name and has a string value. |
| `DocumentNames.DisguisedFieldIsMissed` | backend/internal/agentjob/partial.go:40-61 | Of a document whose only field has an escaped name nothing is shown. |
| `DraftPreview.ListCandidates` | backend/internal/aiassist/aiassist.go:456-466 | The loop lists title and trimmed note of each candidate, trimmed before or not. |
| `DraftPreview.PreviewOfDraft` | backend/internal/aiassist/preview.go:24-45 | For any document whose titles and notes are those of at most forty titled candidates the preview equals the candidate lines exactly when no blank note precedes a note. |
| `PrintedDraft.PrintedDraftPrints` | backend/internal/aiassist/aiassist.go:456-466 | A draft written as a list of objects with a title and perhaps a note, beside members without either, holds exactly these titles and notes. |
| `PrintedDraft.PreviewOfPrintedDraft` | backend/internal/aiassist/preview.go:24-45 | The preview of such a draft of at most forty titled candidates equals the candidate lines exactly when no blank note precedes a note. |
| `PrintedDraft.NamesAreSpelled` | backend/internal/aiassist/preview.go:34-35 | The names that the preview looks for are title and note. |
| `Executor.ToolExecutor.WithResource` | backend/internal/agenttools/resource.go:28-34 | Opening a record starts a new session: cache, delivered set and bytes read are cleared, handles stay. |
| `Executor.ToolExecutor.ReadContext` | backend/internal/agenttools/resource.go:65-91 | Facts, rules and every file are registered under unused handles, the files unread. |
| `Executor.ToolExecutor.CheckRequest` | backend/internal/agenttools/resource.go:112-120 | The whole request is checked before any file is read: files of the open record, none twice. |
| `Executor.ToolExecutor.ReadOne` | backend/internal/agenttools/resource.go:125-189 | One file: missing, already given, from the cache, over the limits, unreadable, empty or given. |
| `Executor.ToolExecutor.ReadAll` | backend/internal/agenttools/resource.go:121-189 | The loop over the requested files. |
| `Executor.ToolExecutor.ReadEvidenceFiles` | backend/internal/agenttools/resource.go:93-196 | Files count as delivered only when the reply fits. |
| `Executor.ToolExecutor.ExecuteResource` | backend/internal/agenttools/tools.go:189-249 | Snapshot, call, size check and rollback. |
| `Executor.ToolExecutor.ChargeScanned` | backend/internal/agenttools/tools.go:591-598 | Scanning within the budget is charged; beyond it the budget is used up and the call fails. |
| `Executor.ToolExecutor.RunOtherTool` | backend/internal/agenttools/tools.go:212-239 | Other tools register and read library sources and charge scans, and are not rolled back. |
| `Executor.ClipEvidenceText` | backend/internal/agenttools/resource.go:198-207 | The loop drops bytes until no character is cut. |
| `Executor.ClipIsLongest` | backend/internal/agenttools/resource.go:198-207 | The clipped text contains every valid prefix within the limit. |
| `Executor.ClipIsEmptyExactly` | backend/internal/agenttools/resource.go:198-207 | Of a text something is kept exactly when its first character fits the limit. |
| `Executor.ChargeScan` | backend/internal/agenttools/tools.go:591-598 | The bytes scanned never decrease and never exceed the budget. |
| `ExecutorReplies.GivenIsCitable` | backend/internal/agenttools/resource.go:125-189 | After an answer about files every handle whose file it gives, or says to have been given, can be cited, and of the others those that could be cited before. |
| `ExecutorReplies.OpenedRecordGives` | backend/internal/agenttools/resource.go:65-189 | Whatever happened before: once a record is opened and listed, any of its files that is ready, within 12 MiB and not blank is given when it is asked for, can be cited from then on, and is not given again. |
| `ExecutorReplies.FilesAreAnswered` | backend/internal/agenttools/resource.go:121-189 | What is said of each file, from the files of the record, their sizes, the limits and the reader: missing, given before, not ready, too large, unreadable, blank or given. |
| `ExecutorReplies.EvidenceRefused` | backend/internal/agenttools/resource.go:93-120 | A request for files is answered exactly when it may be looked at and the answer fits; a refusal leaves every handle and the files given as they were. |
| `ExecutorReplies.BatchBytes` | backend/internal/agenttools/resource.go:144-151 | What is charged is exactly the size of each file that was not converted before and was handed to the reader. |
| `ExecutorReplies.BatchCache` | backend/internal/agenttools/resource.go:143-165 | What is kept of a file is what the reader made of that file, and nothing kept is replaced. |
| `ExecutorReplies.ListingIsAnswered` | backend/internal/agenttools/resource.go:65-91 | A listing is given exactly when the record can be read and the reply fits; its facts and rules can be cited at once. |
| `ExecutorReplies.ReadPassageIsCitable` | backend/internal/agenttools/tools.go:392-399 | A passage can be cited once it was read, whatever is done before and after. |
| `ExecutorReplies.RegisteredIsCitable` | backend/internal/agenttools/tools.go:392-399 | A source of the library can be cited at once when it was read or is a whole document. |
| `ExecutorReplies.ScansAreCharged` | backend/internal/agenttools/tools.go:591-598 | Scans that fit are charged byte for byte; otherwise the budget is used up. |
| `ExecutorReplies.EffectsStay` | backend/internal/agenttools/tools.go:212-239 | Other tools are not rolled back: what they did stays even when they fail or their reply is too long. |
| `ExecutorHistory.CitableWasShown` | backend/internal/agenttools/tools.go:392-399 | After any calls an evidence handle can be cited only if a successful call returned that file's content, facts and rules only if one listed the record. |
| `ExecutorHistory.NothingGivenTwice` | backend/internal/agenttools/resource.go:136-142 | Since the record was opened no file's content is returned twice, within a reply or across replies. |
| `ExecutorHistory.BudgetsHold` | backend/internal/agenttools/resource.go:144-151 | Scanned bytes, evidence bytes and reply sizes stay within their limits after any calls. |
| `ExecutorHistory.RefusalRestores` | backend/internal/agenttools/tools.go:189-211 | A refused read leaves handles, citations and delivered files exactly as before. |
| `ExecutorHistory.ShownTextIsTheFiles` | backend/internal/agenttools/resource.go:143-176 | Whatever is shown under a file's id is a conversion of that very file that is not empty, its text clipped to the room of the call, also when it comes from the cache. |
| `ExecutorHistory.ShownIsSomething` | backend/internal/agenttools/resource.go:165-176 | With a reply limit of 4128 bytes or more, text or an image is shown of every file that counts as shown. |
| `ExecutorHistory.NoRoomNoText` | backend/internal/agenttools/resource.go:171-176 | With 4096 bytes or fewer no text is shown of any file, though it counts as shown. |
| `ExecutorHistory.CitableWasSeen` | backend/internal/agenttools/tools.go:392-399 | With 4128 bytes or more an evidence handle can be cited only after text or an image of the file was returned. |
| `ExecutorHistory.BatchIsSound` | backend/internal/agenttools/resource.go:121-189 | One batch shows each file at most once and makes a handle readable only for a file that is or was shown. |
| `GovernanceCase.CaseFile.Execute` | mock/src/governance.ts:360-377 | A ruling is carried out unless it was before; a failing action leaves the case open. |
| `GovernanceCase.CaseFile.AddSeats` | mock/src/governance.ts:419-440 | A panel grows to three or five seats when enough other reviewers are left, else the case is blocked. |
| `GovernanceCase.CaseFile.FinishCase` | mock/src/governance.ts:378-445 | What a complete set of opinions or ballots leads to. |
| `GovernanceCase.CaseFile.Handle` | mock/src/governance.ts:664-827 | Every request on a case: opinion, ballot, new facts, close. |
| `GovernanceCaseVotes.OpinionIsRecorded` | mock/src/governance.ts:789-814 | An opinion that is taken is recorded as it was stated, with score 0 when it rejects, at the seat of the one who stated it and nowhere else; one that is not taken changes nothing. |
| `GovernanceCaseVotes.BallotIsRecorded` | mock/src/governance.ts:815-827 | A ballot that is taken is recorded as it was cast, at that seat and nowhere else; one that is not taken changes nothing. |
| `GovernanceCaseVotes.VotesWereCast` | mock/src/governance.ts:664-827 | After any requests every opinion was stated by its user in an accepted request of the current round, and every ballot cast by its user. |
| `GovernanceCaseVotes.RulingWasStated` | mock/src/governance.ts:378-420 | Every ruling was stated by somebody on the panel in the current round, and a strict majority of different users stated the same verdict in it or voted for it. |
| `GovernanceCaseVotes.OpinionsDecide` | mock/src/governance.ts:378-405 | Before a deliberation, a verdict held by enough seats is the ruling. |
| `GovernanceCaseVotes.BallotsDecide` | mock/src/governance.ts:391-420 | In a deliberation, a verdict that enough seats vote for is the ruling. |
| `GovernanceCaseVotes.NothingDecided` | mock/src/governance.ts:378-420 | Without such a verdict nothing is ruled: while opinions or ballots are missing the case waits, and once all ballots are cast it is blocked. |
| `GovernanceCaseVotes.DeliberationOpens` | mock/src/governance.ts:441-445 | Disagreement of a full panel opens a deliberation of two days. |
| `GovernanceCaseVotes.PanelIsJoined` | mock/src/governance.ts:421-440 | A smaller panel that disagrees is joined by the first reviewers drawn, of those who are free to join, if five more are left over; otherwise it is blocked. |
| `GovernanceCaseVotes.CloseFinishes` | mock/src/governance.ts:664-670 | Anyone on the panel, and the subject, may ask for the decision that is due. |
| `GovernanceCaseVotes.FactsStartOver` | mock/src/governance.ts:672-699 | New facts void every opinion and ballot of the same seats and open the next round. |
| `GovernanceCaseVotes.TwoAgree` | mock/src/governance.ts:378-405 | What the first seat of a new case states is its ruling as soon as the second states the same. |
| `GovernanceCaseHistory.EveryCaseIsSound` | mock/src/governance.ts:313-347 | From the moment a case is opened with two seats, and after any requests, it has 2, 3 or 5 seats of which a strict majority decides, the subject has none, every ballot that is no abstention names a current opinion, and it is ruled at most once. |
| `GovernanceCaseHistory.CaseInvariant` | mock/src/governance.ts:378-445 | No sequence of requests takes a case out of that invariant. |
| `GovernanceCaseHistory.RuledAtMostOnce` | mock/src/governance.ts:360-377 | Over any requests a case is ruled at most once, whatever status it returned to. |
| `GovernanceCaseHistory.RulingHasMajority` | mock/src/governance.ts:378-420 | Each ruling had the one majority there was, of opinions or of ballots for an opinion. |
| `GovernanceCaseHistory.MajorityIsUnique` | mock/src/governance.ts:382-405 | Two verdicts never both hold a majority. |
| `GovernanceCaseHistory.AtMostTwenty` | mock/src/governance.ts:672-699 | A case takes at most twenty opinions and ballots in all. |
| `GovernanceCaseHistory.PanelGrows` | mock/src/governance.ts:421-445 | Disagreement enlarges the panel with drawn, unseated reviewers and keeps the opinions given, blocks the case, or makes a full panel deliberate. |
| `GovernanceCaseHistory.CloseReopensBallotRuling` | mock/src/governance.ts:391-445 | Closing an applied case leaves it applied exactly when its opinions had a majority; otherwise it deliberates again, without a second ruling. |
| `GovernanceCaseHistory.BlockedPanelGrows` | mock/src/governance.ts:422-440 | A blocked case may still be enlarged by a close, and stays blocked. |
| `GovernanceCaseHistory.BlockedPanelIsStuck` | mock/src/governance.ts:789-809 | Such a case in its second round never changes again. |
| `GovernanceCaseHistory.RuledForGood` | mock/src/governance.ts:360-377 | A case that was ruled is never ruled again, and once it has left applied it never returns there. |
| `GovernanceCaseHistory.ClosingRuledCase` | mock/src/governance.ts:378-445 | A close of a ruled case with a full panel leaves the status when the opinions have a majority, else makes it deliberate, and blocks it when all ballots are cast without a majority. |
| `GovernanceCaseHistory.RuledLastRoundStays` | mock/src/governance.ts:378-445 | A case with a full panel that was ruled by ballots in its second round stays applied or deliberates for good, whatever is requested. |
| `GovernanceCaseHistory.ReopenedAfterRuling` | mock/src/governance.ts:671-699 | New facts reopen a ruled case that deliberates again for another round of opinions, and nothing they say is carried out. |
| `GovernanceProposal.Required` | mock/src/governance.ts:70-75 | The threshold is a strict majority; two thirds for activation, and also a third of the roster and five votes for protected matters. |
| `GovernanceProposal.CreatedProposal` | mock/src/governance.ts:189-239 | A new proposal is put to eligible members without an interest in it, and its threshold can be reached. |
| `GovernanceProposal.ProposalFile.CastVote` | mock/src/governance.ts:700-717 | A vote is recorded for an unlocked seat of the frozen list within the window only. |
| `GovernanceProposal.ProposalFile.CloseVote` | mock/src/governance.ts:718-741 | Closing rejects, lets a protected proposal wait, or executes. |
| `GovernanceProposal.ProposalFile.ExecuteProposal` | mock/src/governance.ts:360-377 | Execution goes stale when roster, scheme or timeline changed. |
| `GovernanceProposal.LifeKeepsTerms` | mock/src/governance.ts:189-239 | Voters, threshold, kind and fingerprint never change after creation, and an archived status is final. |
| `GovernanceProposal.TallyIsFinal` | mock/src/governance.ts:700-741 | From the first close that is not too early on no vote changes: the tally at execution is the tally at passing. |
| `GovernanceProposal.AppliedHadMajority` | mock/src/governance.ts:70-75 | Over any life of a proposal, applied means the yes votes of the frozen electorate outnumber all others, silence included. |
| `GovernanceProposal.ExecutedInSameWorld` | mock/src/governance.ts:360-377 | It is carried out at most once, after a passing close, only while roster, scheme and timeline are those of its creation, and not before the waiting day where one is due. |
| `ProposalTerms.RequiredIsLeast` | mock/src/governance.ts:70-75 | The threshold is the smallest number of votes that is enough. |
| `ProposalTerms.CreatedExactly` | mock/src/governance.ts:189-239 | A proposal is made exactly when its author may vote, the students it names are members and enough voters are left; and all its terms. |
| `ProposalTerms.VoteIsRecorded` | mock/src/governance.ts:700-717 | A vote that counts is recorded as it was cast, for the one who cast it and nobody else; one that does not count changes nothing. |
| `ProposalTerms.ChoiceWasCast` | mock/src/governance.ts:700-717 | Over any life of a proposal a voter's choice is that of the voter's last vote that counted. |
| `ProposalTerms.CloseDecides` | mock/src/governance.ts:718-741 | Closing waits, rejects, lets a protected matter wait another day, drops what was decided about something that has changed, and else carries it out; and exactly when each. |
| `ProposalTerms.VotingAndClosing` | mock/src/governance.ts:700-741 | Voting and closing act on the proposal alone, at the time of the world they meet. |
| `ProposalTerms.ElsewhereLeavesProposal` | mock/src/governance.ts:62-75 | Whatever else happens leaves a proposal alone, and time never runs backwards. |
| `ProposalTerms.AdvancingIsWaiting` | mock/src/governance.ts:62-75 | Moving all dates back by four days is as good as four days going by. |
| `CategoryScore.SelectEntries` | mock/src/handle.ts:307-318 | The loop keeps plain entries and the best entry of each exclusive group. |
| `CategoryScore.AddUp` | mock/src/handle.ts:319-328 | The loop over a map of groups adds each group up to its cap. |
| `CategoryScore.CategoryBreakdown` | mock/src/handle.ts:307-336 | Item, base and penalty points and the category cap. |
| `CategoryChoices.WhenOrderMatters` | mock/src/handle.ts:307-328 | Every order of the submissions selects the same ones exactly when the best entries of each exclusive group agree on cap group and cap; every order leads to the same points exactly when all choices of a best entry for each exclusive group and of a cap that may be read for each cap group do; where the best entries agree, exactly when those caps come to the same. |
| `CategoryChoices.TotalIsFreeByChoices` | mock/src/handle.ts:312-328 | All orders of any entries give one total exactly when all choices of best entries and caps do. |
| `CategoryChoices.OrderIsChoice` | mock/src/handle.ts:312-328 | Every order of the entries comes to what some choice of best entries and of caps comes to. |
| `CategoryChoices.ChoiceIsOrder` | mock/src/handle.ts:312-328 | Every choice of best entries, and of caps that may be read then, is what some order comes to. |
| `CategoryOrder.SelectionIsFreeExactly` | mock/src/handle.ts:312-318 | Of equally good entries in an exclusive group each is selected in some order, so the selection is free of the order exactly when they agree. |
| `CategoryChoices.TotalIsFreeExactly` | mock/src/handle.ts:319-328 | Where the best entries agree, the total is free of the order exactly when for each cap group all caps that may be read come to the same. |
| `CategoryOrder.OrderDoesNotMatter` | mock/src/handle.ts:307-336 | Under these conditions the category total does not depend on the order of submissions. |
| `CategoryOrder.ConsistentIsFree` | mock/src/handle.ts:307-328 | They hold when each exclusive group lies in one cap group and each cap group has one cap. |
| `CategoryOrder.OrderMattersAcrossGroups` | mock/src/handle.ts:316-318 | Without the first agreement the order can change the total. |
| `CategoryOrder.OrderMattersAcrossCaps` | mock/src/handle.ts:321-327 | Without the second agreement the order can change the total. |
| `CategoryScoreLaws.IgnoredSubmission` | mock/src/handle.ts:312-312 | A forced rejection, an undecided or foreign submission has no effect anywhere in the list. |
| `CategoryScoreLaws.CapGroupsBound` | mock/src/handle.ts:321-328 | Each cap group adds at most its cap. |
| `CategorySubmissions.SubmissionAdds` | mock/src/handle.ts:307-328 | A submission that counts, outside exclusive groups and shared caps, adds exactly its final score or, if smaller, the cap of its item, wherever it stands; one that does not count adds nothing. |
| `CategorySubmissions.EntriesStem` | mock/src/handle.ts:312-317 | The entries are exactly those of decided, unforced submissions of the category in one of four states, each worth the smaller of final score and item cap. |
| `CategorySubmissions.SelectedStem` | mock/src/handle.ts:312-318 | Of the entries all outside exclusive groups are selected, and of each exclusive group one that no other exceeds. |
| `CategorySubmissions.BeyondTheCap` | mock/src/handle.ts:314-315 | Raising a final score beyond the cap of its item changes nothing. |
| `CategorySubmissions.SharedCap` | mock/src/handle.ts:321-328 | Submissions that share a cap add what they are worth together, up to the cap. |
| `CategorySubmissions.TotalIsCapped` | mock/src/handle.ts:330-336 | Items and every base and penalty entry add up to the total, up to the category's maximum. |
| `CategorySubmissions.KindsAreApart` | mock/src/handle.ts:330-333 | Penalties and other entries are told apart. |
| `CategoryRaise.RaiseIsBounded` | mock/src/handle.ts:307-336 | Raising one final score by d raises the category total by at least 0 and at most d, for which it suffices that no entry of another cap group takes over its exclusive group. |
| `CategoryRaise.ConsistentRaise` | mock/src/handle.ts:307-336 | With exclusive groups in one cap group each and one cap for each cap group the bound always holds. |
| `CategoryRaise.RaiseExactly` | mock/src/handle.ts:307-328 | With one cap for each cap group, raising a plain entry or one of an exclusive group changes the total by what the entry that counts in its place adds to the rest afterwards less what the one before added, so it is bounded exactly when that difference is. |
| `CategoryRaise.RaiseMayCostOtherwise` | mock/src/handle.ts:316-318 | Without agreement in an exclusive group a better decision can cost points. |
| `CategoryServer.ComputeCategoryScore` | backend/internal/scheme/score.go:118-168 | The loops over items and maps, visited in any order, add up the plain items and the server's choice of each exclusive group. |
| `CategoryServer.ServerAgrees` | backend/internal/scheme/score.go:120-160 | Where the order of submissions does not matter the server, breaking ties by id and visiting groups in any order, arrives at the demo's item total. |
| `ServerScore.CollectItems` | backend/internal/api/current_score.go:132-151 | The loop over the submissions of a member picks the items the laws below are about. |
| `ServerScore.SameEntries` | backend/internal/api/current_score.go:207-222 | The server adds up the entries of the demo exactly when no cap group that counts has a blank key. |
| `ServerScore.LowerIdWins` | backend/internal/scheme/score.go:120-137 | Of an exclusive group the server chooses a best item, and of several the one with the lowest id. |
| `ServerScore.ServerScoresAsDemo` | backend/internal/api/current_score.go:132-178 | Where submissions come in the order of their ids the server selects just what the demo selects, ties included, and arrives at its item total when the caps that may be read agree. |
| `ServerScore.ScoreCategory` | backend/internal/api/current_score.go:132-178 | From the rows of the database to the breakdown of a category. |
| `Ranking.RankCategory` | backend/internal/settle/settle.go:127-161 | Ranking along the sorted class gives every member one more than the number of better members. |
| `Ranking.RankBy` | backend/internal/settle/settle.go:85-101 | Along any order that puts better scores first, every member gets one more than the number of better members. |
| `Ranking.ComputeCurrentScores` | backend/internal/api/current_score.go:119-207 | The loops over members and categories give every member the ranks that the two laws below are about. |
| `Ranking.RankAtIsRank` | backend/internal/settle/settle.go:216-224 | In a sorted class the recursive rank by place is the competition rank. |
| `Ranking.RankOrder` | mock/src/handle.ts:357-359 | A better score has a strictly smaller rank, equal scores share one. |
| `Ranking.TotalIsClose` | backend/internal/settle/settle.go:66-76 | The weighted total is within k/2 thousandths of the exact sum over k categories. |
| `Ranking.AllOrNone` | backend/internal/api/current_score.go:179-207 | Total ranks appear for all members or for none, and only when every member has a total. |
| `Ranking.GpaLeavesOtherRanks` | backend/internal/api/current_score.go:179-207 | Importing grades never changes the ranks in another category. |
| `ShownScores.ShownTotal` | backend/internal/api/current_score.go:179-207 | A total is shown to those whose grade was imported; it counts that grade, and differs from the exact weighted sum by at most half a thousandth for each category. |
| `ShownScores.ShownRanks` | backend/internal/api/current_score.go:179-207 | Every rank shown is one more than the number of members who are ahead; ranks by total and by grade are shown once every grade is imported, the others always. |
| `ShownScores.BetterGradeBetterTotal` | backend/internal/settle/settle.go:66-76 | A better grade never lowers a total when no weight is negative. |
| `Awards.AwardTierFor` | mock/src/handle.ts:257-265 | The lookup of a place in the cumulated tiers. |
| `Awards.AwardTiers` | backend/internal/settle/settle.go:204-214 | Filling the tiers in turn gives every place the tier the demo looks up for it. |
| `Awards.TierOfPlace` | backend/internal/settle/settle.go:189-214 | A place has a tier exactly within that tier's stretch of places. |
| `Awards.AwardsHandedOut` | backend/internal/settle/settle.go:189-214 | A class of n receives exactly the smaller of n and the sum of the rounded tier sizes. |
| `Awards.QuotaIsNearest` | backend/internal/settle/settle.go:189-191 | The places of a tier are the nearest whole number to its share of the class, the larger where two are equally near. |
| `Awards.TierIsFilled` | backend/internal/settle/settle.go:204-214 | Every tier is handed out as often as its share of the class says, as long as the tiers before it leave so many of the class. |
| `AwardOrder.AwardClass` | backend/internal/settle/settle.go:80-112 | Sorting the class and reading the tiers along it gives every member the tier of the place that is one more than the number of members served before: by total, then imported grade, then number. |
| `AwardOrder.NobodyIsOvertaken` | backend/internal/settle/settle.go:80-112 | Whoever is served before another one has an earlier place and a tier that is at least as good. |
| `MigrationCatalog.MigrationFiles` | backend/db/migrations/embed.go:147-198 | The catalog is accepted exactly when every file has a version, a single slot and a counterpart, and is then the strictly ascending list of pairs. |
| `MigrationCatalog.CollectFiles` | backend/db/migrations/embed.go:152-180 | The loop over the directory fills one slot per version and direction or refuses a directory that cannot be accepted. |
| `MigrationCatalog.ListingOrderIsIrrelevant` | backend/db/migrations/embed.go:147-198 | Neither acceptance nor the catalog depends on the order of the listing. |
| `CatalogNames.PairHasStem` | backend/db/migrations/embed.go:147-198 | Two files form a migration only when their names are one number, an underscore, one text, and the two endings. |
| `CatalogNames.PairOf` | backend/db/migrations/embed.go:147-198 | Any two files named so, by the same number and text, form a migration. |
| `CatalogNames.NumberedPair` | backend/db/migrations/embed.go:147-210 | The usual names form a migration, with zeros in front of the number or not. |
| `CatalogNames.ReadsNumbers` | backend/db/migrations/embed.go:200-210 | A number may carry a sign and is read when it fits into 64 bits. |
| `CatalogNames.ReadsNothingElse` | backend/db/migrations/embed.go:200-210 | Nothing but digits behind a sign or none is read. |
| `CatalogNames.NumbersRoundTrip` | backend/db/migrations/embed.go:200-210 | Whatever number is written and fits is read back. |
| `Migrations.Database.RunUp` | backend/db/migrations/embed.go:58-86 | The loop over a database that may lose its process after any transaction. |
| `Migrations.Database.RunDownOne` | backend/db/migrations/embed.go:103-136 | The latest recorded version is reverted, or nothing changes. |
| `Migrations.UpStopsAtSegment` | backend/db/migrations/embed.go:58-86 | Wherever an upgrade stops, the versions are the old ones and an initial segment of the pending ones, and the schema is what exactly those scripts make. |
| `Migrations.UpsStopAtSegment` | backend/db/migrations/embed.go:58-86 | So have any number of upgrades one after the other, each killed anywhere. |
| `Migrations.SecondUpRunsNothing` | backend/db/migrations/embed.go:58-66 | After a finished upgrade another runs nothing. |
| `Migrations.ResumedUp` | backend/db/migrations/embed.go:58-86 | An upgrade that comes to its end ends where a single one would, however many upgrades were killed before it and wherever. |
| `Migrations.DownUndoesUp` | backend/db/migrations/embed.go:92-136 | When downs invert ups and new versions exceed old ones, as many reverts as were applied lead back to the start, wherever the upgrade stopped. |
| `UpgradeEnds.UpFinishesExactly` | backend/db/migrations/embed.go:58-86 | An upgrade comes to its end exactly when the process lives for all pending migrations and all their scripts work; otherwise it has applied as many as it lived for, or all before the first script that fails. |
| `UpgradeEnds.RevertsExactly` | backend/db/migrations/embed.go:103-136 | Reverting works exactly when the catalog has the latest version and its down script works; then the schema is what that script makes of it and that version alone is no longer recorded. |
| `UpgradeEnds.UnknownIsNotReverted` | backend/db/migrations/embed.go:103-136 | A version that the catalog does not know cannot be reverted. |
| `Sampling.SampleByBatch` | backend/internal/aievaluation/evaluation.go:394-429 | The sample has exactly min(target, total) assets, takes none twice, takes the smallest hashes of each batch, takes at most one more from a batch than from any other that has something left, and takes its assets in turn: in each turn in the order of the batches. |
| `Sampling.TakesSmallest` | backend/internal/aievaluation/evaluation.go:394-404 | Nothing that is left of a batch has a smaller hash than anything taken from it. |
| `Sampling.PlayRound` | backend/internal/aievaluation/evaluation.go:413-427 | One round takes the next asset of every batch that has one, until the sample is full. |
| `Sampling.StateIsFair` | backend/internal/aievaluation/evaluation.go:413-427 | Any point of any round is a fair sample of its size. |
| `Sampling.StateIsInTurn` | backend/internal/aievaluation/evaluation.go:413-427 | Any point of any round has taken its assets in turn. |
| `SampleOrder.SampleIsUnique` | backend/internal/aievaluation/evaluation.go:394-429 | There is only one fair sample that takes its assets in turn. |
| `BatchLifecycle.BatchRecord.StartBatch` | backend/internal/api/ai_handlers.go:450-532 | Start is idempotent for a running batch and otherwise needs materials, time and quota. |
| `BatchLifecycle.BatchRecord.RecomposeBatch` | backend/internal/api/ai_handlers.go:541-605 | Recompose needs a batch in review with something to retry. |
| `BatchLifecycle.BatchRecord.StopCompose` | backend/internal/api/ai_handlers.go:617-657 | Stop only leaves a mark. |
| `BatchLifecycle.BatchRecord.BeginApply` | backend/internal/api/ai_handlers.go:758-781 | The checks of an apply request under the row lock. |
| `BatchLifecycle.BatchRecord.CommitApply` | backend/internal/api/ai_handlers.go:848-921 | One draft for each candidate, then the batch is complete. |
| `BatchLifecycle.BatchRecord.DeleteBatch` | backend/internal/api/ai_handlers.go:1024-1096 | Deleting cancels every batch but an applied one. |
| `BatchLifecycle.BatchRecord.ClaimBatch` | backend/internal/aijob/worker.go:197-239 | The worker takes up only queued, processing and failed batches. |
| `BatchLifecycle.BatchRecord.FinishBatch` | backend/internal/aijob/worker.go:376-399 | The last transaction publishes only from processing; a failure spares closed batches. |
| `BatchLifecycle.BatchRecord.SweepBatch` | backend/internal/maintenance/maintenance.go:474-481 | The maintenance sweep expires late batches that wait or were canceled. |
| `BatchLifecycle.LifeIsSound` | backend/internal/api/ai_handlers.go:450-1096 | The invariant of every interleaving of requests, viewers, the worker and the maintenance sweep. |
| `BatchLifecycle.DraftsOnce` | backend/internal/api/ai_handlers.go:758-929 | Under any interleaving drafts are created at most once, only in the step from review to complete. |
| `BatchLifecycle.WorkerPublishesProcessing` | backend/internal/aijob/worker.go:376-399 | The worker publishes only from processing and its last step never touches a batch that is not. |
| `BatchLifecycle.HowClosedIsLeft` | backend/internal/api/ai_handlers.go:659-678 | Complete is left exactly when a viewer that had read the batch earlier writes that it expired; canceled exactly then or when a sweep finds it late. |
| `BatchLifecycle.SweepExpiresCanceled` | backend/internal/maintenance/maintenance.go:474-481 | Any canceled batch that is swept past its expiry is expired. |
| `BatchLifecycle.ClosedForGood` | backend/internal/api/ai_handlers.go:450-1096 | Whatever happens, a complete, canceled or expired batch never runs, publishes or creates a draft again. |
| `BatchLifecycle.RestartedRunIsNotStopped` | backend/internal/api/ai_handlers.go:516-589 | A run that is started again is stopped only by a request made since. |
| `BatchLifecycle.FinalIsFinal` | backend/internal/api/ai_handlers.go:450-1096 | With atomic transactions complete is never left, and canceled only by a sweep. |
| `BatchLifecycle.ViewMayLoseComplete` | backend/internal/api/ai_handlers.go:659-678 | Any batch that is applied while a viewer reads it past its expiry ends up expired, with its drafts. |
| `BatchMoves.Queueing` | backend/internal/api/ai_handlers.go:450-605 | A batch is queued by a start, when nothing was processed yet and every material is there, or when it failed, within the quota; and by a recompose that has something to retry; and in no other way. |
| `BatchMoves.Claiming` | backend/internal/aijob/worker.go:197-239 | A free worker takes a queued or a failed batch, and takes up again one that was being processed. |
| `BatchMoves.Publishing` | backend/internal/aijob/worker.go:376-399 | A batch comes into review by its worker publishing at least one candidate while it is still being processed, and in no other way. |
| `BatchMoves.Failing` | backend/internal/aijob/worker.go:1117-1127 | A batch fails by its worker failing, unless it was closed meanwhile. |
| `BatchMoves.Applying` | backend/internal/api/ai_handlers.go:758-929 | Drafts are created by committing an apply request under the row lock: as many as there are candidates, one to a hundred. |
| `BatchMoves.Canceling` | backend/internal/api/ai_handlers.go:1024-1096 | Deleting cancels any batch that was not applied; nothing else cancels. |
| `BatchMoves.Expiring` | backend/internal/api/ai_handlers.go:659-678 | A batch expires after its time: when it waits and is viewed, when it waits or was canceled and is swept, or when a viewer writes what it read earlier. |
| `BatchMoves.StopMark` | backend/internal/api/ai_handlers.go:617-657 | A stop request leaves its mark on a queued or running batch, until the batch is queued again. |
| `BatchMoves.Working` | backend/internal/aijob/worker.go:197-239 | A worker holds a batch from claiming it to its last transaction or its death. |
| `BatchMoves.FromUploadToDrafts` | backend/internal/api/ai_handlers.go:450-929 | The whole way of a batch: started with its materials, taken up, published, applied. |
| `PageRefs.NormaliseAIPageRefs` | backend/internal/api/ai_handlers.go:996-1009 | The compaction in place leaves the repaired references at the front of the slice. |
| `PageRefs.RefsAreRepaired` | backend/internal/api/ai_handlers.go:996-1022 | Afterwards every page exists, no reference is repeated, and no material is lost or added. |
| `PageRefs.RepairedStays` | backend/internal/api/ai_handlers.go:996-1022 | A repaired list is left alone. |
| `PageRefs.NormalPageIsReal` | backend/internal/api/ai_handlers.go:1011-1022 | A page is kept exactly when it exists. |
| `PageRefs.NormalPageIsNearest` | backend/internal/api/ai_handlers.go:1011-1022 | A page that does not exist becomes the nearest that does. |
| `PageRefs.OnlyPdfsHavePages` | backend/internal/api/ai_handlers.go:996-1014 | Only the page of a reference is repaired; what is no PDF, or not known at all, has no page but 0. |
| `PageRefs.RefsOnlyGrow` | backend/internal/api/ai_handlers.go:996-1009 | Later references never displace earlier ones. |

## Left out

- Request hashes, raw responses and attempt counts of composed drafts: stored rows do not carry the first two, and the third differs between a resumed and an uninterrupted run.
- Previews and thinking written while a chunk is composed: they are throttled by the clock and do not touch results.
- Changing observations between processes: the theorem on resuming fixes the list; `Delivery.DeliversOnlyCurrentAssets` covers other lists.
- CandidateGate.VerifyCandidate: lists inside a candidate are values; the compaction over the front of a slice is shown for strings and page references.
- Drafts.DraftBuilder.MergeDraft: does not keep the first request hash, because stored rows do not carry one.
- Executor.ToolExecutor.RunOtherTool: does not model what the tools that search the class library find, only what they do to handles and the scan budget.
- CategoryRaise.RaiseIsBounded: the condition is sufficient; where another cap group takes over, `CategoryRaise.RaiseExactly` says exactly what changes.
- Ill-formed buffers: the raw-body theorem covers them, the theorems on decoded text are about printed documents.
- Encodings of JSON replies: their length is a parameter of the executor.
- Ranking.RankCategory: the library sort is an insertion sort on values; only order and permutation matter.
- Ranking.AllOrNone: category scores of members are given; their computation is the subject of `CategoryScore`.
- Honours that depend on four category ranks at once: a conjunction of ranks that are modelled.
- Ranking.ComputeCurrentScores: category scores are given, as for the laws about it.
- AwardOrder.AwardClass: between members with equal totals and equal grades the member's number decides instead of the student number.
- Repeated proposal requests with the same request id, which return the proposal made before.
- Awards: names of tiers are assumed non-empty where awards are counted.
- MigrationCatalog.MigrationFiles: the messages of errors, and names that occur twice in a directory, which no file system lists.
- Migrations.Database.RunUp: the advisory lock, by which only one upgrade runs at a time.
- Seeding of the demo, submitting appeals directly, uploads of evidence and page components of the mock: demo plumbing with no kept invariant.
- GovernanceCase.CaseFile.Handle: a request is one step, so a second request arriving while an action is being carried out is not modelled.
- Perception of single images, PDF rendering, object storage, quotas, audit rows and mail: calls into other systems.

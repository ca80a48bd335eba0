# Verified model of the AC209 and AC265 release workflows

This project models the stateful cores of `infra/workflows` and proves what the workflows rely on them for. It holds
six groups of modules.

- **Queue exercise** (`QueueModel`, `QueueProvider`, `QueueListing`, `QueueCleanup`, `QueueExercise`). A client
  publishes one marker message, waits for it in the dead-letter queue, purges it and declares it absent. The provider
  is a class over two queues; before every call an environment step changes them, and every call may fail, including
  after it took effect. A trace records each call with its reply; a ledger records every change of the state, the
  environment's moves and the effects of calls, so that the two can be told apart over whole runs.
- **Canonical text** (`TextOrder`, `Utf8`, `Members`, `JsonText`, `CanonicalForm`, `CanonicalBytes`,
  `ShortestText`, `SemanticSubject`). Strings are sequences of UTF-16 code units. A printer following `JSON.stringify`
  and a reader of the grammar of sections 3 to 7 of RFC 8259, without insignificant white space, are inverse to each
  other; its texts are also characterised without it, and carried to UTF-8 bytes, lone surrogates included; the
  serialiser works on arbitrary finite object graphs with shared and cyclic references.
- **Report publication** (`ReportPublication`, `ReportWriter`). A step machine over a file system with any number of
  racing writers and a crash possible at every step, and the writer's own code as a run of that machine.
- **Timelines and pages** (`DeploymentTimeline`, `Pagination`). Which deployment was live, decided from unordered
  status lists, and the bounded page collectors that fetch them.
- **Windows and tallies** (`EmailDiagnostics`, `RoutingEvents`, `SendingGroups`). A diagnostic beside
  the gate it explains, a distribution over a bag of rows, hour buckets and totals in double precision.
- **Artifacts and contracts** (`ArchivePolicy`, `LockedOrder`, `HostedHandles`, `RunnerContract`). Archive member
  conflicts as a file-tree property, derived handles and references, and the contract composer against its gate.

They share `Outcomes` (the two result shapes), `Sequences`, `Sorting` (one stable insertion sort) and `SafeIntegers`.

## Assumptions

- Queue environment (`QueueModel.EnvStep`): between two calls marker messages of the source queue never become more,
  and those of both queues together never become more; so markers move from source to dead letter or vanish, and a
  move is one step. Bystander messages are unrestricted. A message reference once seen in a queue is never used again
  there for a message of the other kind. What the environment will do is fixed in advance as a function of the number
  of its move and the state, so nothing the client does can pass for a move of the environment. A peek returns messages
  of the queue and all of them when it returns fewer than the batch. A publish has settled when its call returns or
  fails.
- Files: names of temporary files are unique per writer; a write makes positive progress; hard-link creation and
  exclusive creation are atomic and refuse an existing name.
- Unicode folding works separately on both sides of a slash. Double rounding is monotone and exact up to 2^53. Digests
  and signatures are parameters; no property here needs them to be collision-free. `localeCompare` is a parameter that
  orders the texts of digests strictly. A lenient UTF-8 decoder is a parameter, fixed on well-formed input only; reading
  and writing a number is one that leaves written text as it is.

## Model

| member | source | states |
|---|---|---|
| QueueModel.ShortPageShowsAbsence | infra/workflows/ac209-queue-cleanup.ts:166-178 | a page shorter than the batch without a marker proves that the whole queue has none |
| QueueModel.MatchesNameMarkers | infra/workflows/ac209-queue-provider.ts:340-373 | every match returned names the reference of a message of the page whose body is exactly the marker body |
| QueueModel.MarkerBodyExactly | infra/workflows/ac209-queue-provider.ts:324-338 | a body is a marker exactly when it is, or is a text that parses to, an object with the one field `cfsa_ac209_test` holding the marker |
| QueueModel.MatchingMessagesExactly | infra/workflows/ac209-queue-provider.ts:340-373 | the matches are exactly the marker records of the page, in order and field by field; they fail when one of these lacks a nonempty id or reference or a count |
| QueueModel.WithoutRefEffect | infra/workflows/ac209-queue-provider.ts:366-373 | removing a reference keeps exactly the messages without it, never adds a marker, and keeps all bystanders when it names markers only |
| QueueProvider.PurgeOfMarkerRef | infra/workflows/ac209-queue-cleanup.ts:91-113 | a purge is an environment step, and one of a known marker reference removes no bystander from any queue |
| QueueProvider.PurgeAcceptedExactly | infra/workflows/ac209-queue-cleanup.ts:30-36 | a purge reply is accepted exactly when errors, messages, warnings and the errors and warnings of its result are each absent or an empty array, object or string |
| QueueProvider.PageRefsAreKnown | infra/workflows/ac209-queue-cleanup.ts:154-163 | a marker reference read in a peeked page is known as a marker reference of that queue |
| QueueProvider.EnvTransitive | infra/workflows/ac209-queue-cleanup.ts:128-212 | environment steps compose, so what holds between two calls holds across a run |
| QueueProvider.Provider.Peek | infra/workflows/ac209-queue-provider.ts:308-322 | after any interference returns part of the queue, all of it when shorter than the batch, and changes nothing itself |
| QueueProvider.Provider.Purge | infra/workflows/ac209-queue-cleanup.ts:96-111 | whatever the reply, the named reference is either removed from that one queue or nothing changed |
| QueueProvider.Provider.Publish | infra/workflows/ac209-queue-exercise.ts:116-124 | a successful publish enqueued the body; a failed one may have; its reply and effect are on record |
| QueueProvider.ChangesSince | infra/workflows/ac209-queue-cleanup.ts:128-212 | between two states of the provider the moves made lead from one to the other, and the client's among them are exactly the effects of the calls recorded in between |
| QueueProvider.BystandersConserved | infra/workflows/ac209-queue-cleanup.ts:128-212 | when only the environment touches bystanders, each queue's copies of a bystander change by exactly what the environment adds and takes |
| QueueProvider.EnqueuedMarkerSpares | infra/workflows/ac209-queue-exercise.ts:116-124 | enqueuing a marker leaves the bystanders of every queue |
| QueueListing.AppendPage | infra/workflows/ac209-queue-provider.ts:246-257 | appends the parsed queues of a page, or fails exactly on a malformed queue or a repeated id or name |
| QueueListing.ParseQueueExactly | infra/workflows/ac209-queue-provider.ts:178-196 | a listed queue is the id and name its record gives, 32 hexadecimal digits and 1 to 128 characters of the allowed kinds; any other record is refused |
| QueueListing.PageStepExactly | infra/workflows/ac209-queue-provider.ts:219-257 | a page is accepted exactly when it gives new well-formed queues, at most 100, and announces its own number and length, 1 to maxPages pages and the total announced before; else the listing ends with a listing error |
| QueueListing.HonestAccountIsListed | infra/workflows/ac209-queue-provider.ts:198-266 | an account served in honest pages of 100 within the bound is listed entirely and in order |
| QueueListing.ListQueues | infra/workflows/ac209-queue-provider.ts:198-266 | against any server: pages 1, 2, … and at most maxPages requests, as many as announced while replies are accepted; the outcome is the one the replies determine, errors included; a returned list has distinct ids and names, is what the pages contributed in order, and is as long as every page's total count |
| QueueListing.DistinctNamesDistinctIds | infra/workflows/ac209-queue-provider.ts:246-257 | in a listed account two different names belong to different ids |
| QueueListing.NamedOne | infra/workflows/ac209-queue-exercise.ts:86-93 | the filter by name leaves one entry exactly when that entry and no other has the name |
| QueueCleanup.KeyInjective | infra/workflows/ac209-queue-cleanup.ts:154-163 | a map key names one queue and one reference |
| QueueCleanup.SetRefAddsOne | infra/workflows/ac209-queue-cleanup.ts:154-163 | setting a target in the reference map adds exactly that target |
| QueueCleanup.SourceThenDeadLetter | infra/workflows/ac209-queue-cleanup.ts:132-145 | two short marker-free pages, source read before dead letter, prove absence in both queues at the second read, whatever moved in between |
| QueueCleanup.SwappedPassMisses | infra/workflows/ac209-queue-cleanup.ts:132-145 | for every well-formed marker, a pass in the swapped order that completes without a failure or a match while the marker sits in the dead-letter queue |
| QueueCleanup.FullPageProvesNothing | infra/workflows/ac209-queue-cleanup.ts:166-178 | a full page without a match can hide a marker, so rejecting it is needed |
| QueueCleanup.PurgeRefs | infra/workflows/ac209-queue-cleanup.ts:91-113 | one purge per collected reference in insertion order, stopping at the first refusal; all bystanders and the marker order are kept |
| QueueCleanup.OnePass | infra/workflows/ac209-queue-cleanup.ts:128-196 | one pass: two peeks, then purges of exactly the references that their markers name, source page first, in order and none twice, up to the first refusal, and none at all when a page is malformed or full of strangers; a pass without a match leaves both queues marker-free; it fails exactly on a failed peek, a malformed marker, a full page of strangers or a refused purge |
| QueueCleanup.TimedPass | infra/workflows/ac209-queue-cleanup.ts:197-198 | the clock is read after a pass except on the last poll, and absence shown by the pass still holds after it |
| QueueCleanup.Turn | infra/workflows/ac209-queue-cleanup.ts:128-198 | one turn extends the run by one pass and says whether the run is decided, and how |
| QueueCleanup.CompletedTurnDecides | infra/workflows/ac209-queue-cleanup.ts:193-213 | a completed pass and the bound together give a report, a failure or another turn, each the verdict on the calls so far |
| QueueCleanup.FailedTurnDecides | infra/workflows/ac209-queue-cleanup.ts:185-198 | a failed pass or an unreadable clock ends the run with the error of the first cause |
| QueueCleanup.PassesSleepWithinBound | infra/workflows/ac209-queue-contracts.ts:235-263 | a cleanup of at most maxPolls passes with pauses between them sleeps at most 300000 ms in all |
| QueueCleanup.SparingRun | infra/workflows/ac209-queue-cleanup.ts:91-113 | over a run whose calls spare bystanders, every change not made by the environment is one of these calls, and bystanders are conserved up to the environment |
| QueueCleanup.ReportMeansQuietReplies | infra/workflows/ac209-queue-cleanup.ts:75-111 | after a report every purge of the run was answered, and none of the answers says anything in the five places |
| QueueCleanup.QuietPassCompletes | infra/workflows/ac209-queue-cleanup.ts:128-196 | a pass with usable pages whose purges are all answered with nothing to say completes |
| QueueCleanup.ComplaintEndsRun | infra/workflows/ac209-queue-cleanup.ts:75-111 | a purge answered with an entry in any one place is the last call, and the run fails with the boundary of the purge and an invalid response |
| QueueCleanup.ClockOfRun | infra/workflows/ac209-queue-cleanup.ts:121-221 | the bound is 300000 ms after the first reading: no pass follows a reading from then on, and a report without a purge takes such a reading or the last poll |
| QueueCleanup.ReadErrorEndsRun | infra/workflows/ac209-queue-cleanup.ts:132-190 | with usable pages and no purge refused the run fails with the diagnostic of the first peek that failed, the source's before the dead letter's |
| QueueCleanup.CleanupResolved | infra/workflows/ac209-queue-cleanup.ts:115-223 | every run: its calls and clock readings are these and no others and its outcome is the verdict on them; a report means no marker in either queue at the last peek and on return; its purge count is the number of purges, all accepted; with a required marker there was a purge and a later clean pass; at most maxPolls passes and 300000 ms of sleep; failure has one of the listed causes; absence of a marker never seen is declared at the bound only; whatever changed a bystander was the environment |
| QueueExercise.PollDeadLetter | infra/workflows/ac209-queue-exercise.ts:125-153 | at most maxPolls peeks of the batch size, each in time; the outcome is the verdict on them: the marker of the last page if that holds exactly one, or the error of the first cause, a thrown one of the exercise's own class unchanged; earlier pages were short and had none; at most 300000 ms of sleep |
| QueueExercise.PolledExactly | infra/workflows/ac209-queue-exercise.ts:132-149 | a page decides: one marker record is found, a short page without any lets the search go on, and a malformed one, several, or none on a full page have their own errors |
| QueueExercise.SearchLooksWithinBound | infra/workflows/ac209-queue-exercise.ts:125-151 | a search only looks, and sleeps at most 300000 ms in all |
| QueueExercise.RunExercise | infra/workflows/ac209-queue-exercise.ts:55-212 | the run's calls and readings are those of a journal of stages, each reached exactly because the one before succeeded: at most one publish, directly after a verified consumer and two empty peeks of two different queues; a whole cleanup of those queues exactly when a publish was attempted; the result is the verdict on the journal, the try block's error winning; what the clock, a sleep or the callback throws ends the run with its own error if it is one of the exercise's, else as a failed request; a report means the marker was observed, purged at least once and is gone; each loop sleeps at most 300000 ms; whatever changed a bystander was the environment |
| QueueExercise.ConsumerProblemExactly | infra/workflows/ac209-queue-provider.ts:375-421 | nothing is found wrong exactly with a single worker whose queue name, script ids, dead-letter queue and retries (3 when not set) are as expected; a single defect is named by its own code |
| QueueExercise.ConsumersDecide | infra/workflows/ac209-queue-exercise.ts:100-111 | of every run: a publish takes such a consumer, such a consumer is never refused, and a single defect ends the run with its code and without a publish |
| QueueExercise.IdentifyExactly | infra/workflows/ac209-queue-exercise.ts:84-99 | two queues are identified exactly when each name belongs to one listed queue only and the ids are the expected ones |
| QueueExercise.PublishedIsMarker | infra/workflows/ac209-queue-exercise.ts:115-124 | the one message published is the marker under its field name, to the queue whose consumer was verified |
| QueueExercise.ThrownEndsRun | infra/workflows/ac209-queue-exercise.ts:46-72 | what the clock, a sleep or the callback throws is the run's error, unchanged if it is of the exercise's own class and else a failed request; a clock that throws at the start is a wrong configuration |
| QueueExercise.ClockOfSearch | infra/workflows/ac209-queue-exercise.ts:125-131 | no poll is made once the clock shows more than 300000 ms after the start, and then the marker was not observed |
| QueueExercise.CleanedUp | infra/workflows/ac209-queue-exercise.ts:187-211 | the two outcomes decide the result, and the run's own test of the purge count never fails |
| QueueExercise.CleanupMarker | infra/workflows/ac209-queue-cleanup.ts:225-231 | the stand-alone cleanup: a listing and, exactly when that determines the two expected queues, a whole cleanup of them, and no other call; otherwise the listing's or the resolution's error; bystanders are left to the environment |
| QueueExercise.ResolveExactly | infra/workflows/ac209-queue-cleanup.ts:55-72 | the stand-alone cleanup works on two queues exactly when each name belongs to one listed queue only, and these are different and have the expected ids |
| TextOrder.CompareCodePointOrder | infra/workflows/ac265-hosted-semantic-subject.ts:3-12 | the index loop returns the first difference of the code points, or of the lengths |
| TextOrder.StrictTotalOrder | infra/workflows/ac265-hosted-semantic-subject.ts:3-12 | irreflexive, total on different strings, transitive, and zero only on equal strings, for all three key orders |
| TextOrder.OrdersDifferExactly | infra/workflows/ac265-hosted-run-manifest-crypto.ts:21-22 | for all strings, code-point and code-unit order disagree exactly when at the first differing unit one of the two is half of a surrogate pair, the other is not, and the paired one is the smaller unit |
| TextOrder.OrdersAgreeWithoutSurrogates | infra/workflows/ac265-hosted-run-manifest-crypto.ts:21-22 | the two orders agree on all strings without surrogates |
| TextOrder.OrdersDisagreeOnSurrogates | infra/workflows/ac265-hosted-run-manifest-crypto.ts:21-22 | the orders disagree on every astral character against every unit above the surrogates |
| TextOrder.IndexExactly | infra/workflows/ac265-hosted-run-manifest-crypto.ts:59-67 | the keys listed first are the decimal texts of the numbers below 2^32 - 1, by value |
| Members.SortsAgreeExactly | infra/workflows/ac265-hosted-run-manifest-crypto.ts:59-67 | the two sorts arrange an object's members alike exactly when no two of its keys are such a pair |
| Members.OwnKeyOrderSorts | infra/workflows/ac265-hosted-run-manifest-crypto.ts:59-67 | rebuilding an object from sorted entries lists its keys integer-like ones first, which is again a sorted order |
| Members.ArrangeForgetsOrder | infra/workflows/ac265-hosted-artifact-source-manifest-crypto.ts:48-56 | two member lists with distinct keys are arranged alike exactly when they have the same members |
| JsonText.ReadQuoted | infra/workflows/ac265-hosted-semantic-subject.ts:16 | reading a quoted string gives back its units, escapes and lone surrogates included, and stops at its closing quote |
| JsonText.ReadPrinted | infra/workflows/ac265-hosted-semantic-subject.ts:14-41 | reading the text of any value, whatever follows, gives back the value and what follows |
| JsonText.PrintInjective | infra/workflows/ac265-hosted-semantic-subject.ts:14-41 | different value trees have different texts |
| ShortestText.QuoteExactly | infra/workflows/ac265-hosted-semantic-subject.ts:16 | the text of a string is the shortest text without lone surrogates that reads as it, with lower-case hexadecimal digits, and no other text is |
| ShortestText.ArrayText | infra/workflows/ac265-hosted-semantic-subject.ts:28-29 | an array's text is its items' texts between brackets, separated by commas |
| ShortestText.ObjectText | infra/workflows/ac265-hosted-semantic-subject.ts:33-40 | an object's text is its keys, colons and values' texts between braces, separated by commas |
| ShortestText.NumberTokenExactly | infra/workflows/ac265-hosted-semantic-subject.ts:18-19 | the number texts are those of section 6 of RFC 8259, part by part |
| ShortestText.KnownEscapes | infra/workflows/strict-json-object-members.ts:34-68 | the hexadecimal digits, in either case, and the eight short escapes that the reader knows |
| CanonicalForm.NormalFormsDecide | infra/workflows/ac265-hosted-run-manifest-crypto.ts:59-67 | two values have the same normal form exactly when they are equal up to member order at every level |
| Utf8.DecodesExactly | infra/workflows/strict-json-object-members.ts:154-163 | the strict decoder accepts exactly the UTF-8 encodings of sequences of Unicode scalars and gives the sequence back |
| Utf8.ScalarExactly | infra/workflows/strict-json-object-members.ts:154-163 | the scalars are the code points that are no surrogates |
| Utf8.SameBytes | infra/workflows/ac265-hosted-run-manifest-crypto.ts:76-77 | two strings have the same bytes exactly when they agree after every lone surrogate is replaced by U+FFFD |
| Utf8.LoneSurrogateBytes | infra/workflows/ac265-hosted-run-manifest-crypto.ts:76-77 | a lone surrogate is written as the three bytes of U+FFFD |
| Utf8.BytesInjective | infra/workflows/ac265-hosted-run-manifest-crypto.ts:76-77 | on strings whose surrogates are all paired, the same bytes mean the same string |
| CanonicalBytes.PrintWellFormed | infra/workflows/ac265-hosted-semantic-subject.ts:14-41 | every surrogate in the text of a value is half of a pair, whatever the value's strings hold |
| CanonicalBytes.CanonicalBytesFaithful | infra/workflows/ac265-hosted-run-manifest-crypto.ts:59-77 | same canonical bytes exactly when equal up to member order, for both forms |
| CanonicalBytes.AcceptsExactlyCanonicalBytes | infra/workflows/ac265-hosted-run-manifest-crypto.ts:147-174 | bytes that hold one value without a repeated member are its canonical bytes exactly when they are the canonical bytes of some value; so ill-formed UTF-8 and numbers written another way are refused; the schema and the locked order of resource references come on top |
| CanonicalBytes.AcceptedBytesDecide | infra/workflows/ac265-hosted-run-manifest-crypto.ts:147-174 | two accepted byte sequences are equal exactly when their values are equal up to member order |
| CanonicalForm.CanonicalTextFaithful | infra/workflows/ac265-hosted-run-manifest-crypto.ts:59-76 | same canonical text exactly when equal up to member order, for the serialiser's and the manifest's form |
| CanonicalForm.NormalizeIdempotent | infra/workflows/ac265-hosted-artifact-source-manifest-crypto.ts:48-56 | normalising twice is normalising once |
| CanonicalForm.CanonicalTextReadsBack | infra/workflows/ac265-hosted-run-manifest-crypto.ts:76-77 | reading a canonical text gives the normal form, equal to the value up to member order |
| CanonicalForm.AcceptsExactlyCanonicalTexts | infra/workflows/ac265-hosted-run-manifest-crypto.ts:147-174 | a text that holds one value without a repeated member is its canonical text exactly when it is the canonical text of some value |
| CanonicalForm.AcceptedTextsDecide | infra/workflows/ac265-hosted-run-manifest-crypto.ts:147-174 | an accepted text holds a normal form, and two accepted texts are equal exactly when their values are equal up to member order |
| SemanticSubject.SerializeInto | infra/workflows/ac265-hosted-semantic-subject.ts:14-41 | computes the text of a node of any finite graph or fails, and leaves the ancestor set as found on return and on throw |
| SemanticSubject.SerializeSemanticSubject | infra/workflows/ac265-hosted-semantic-subject.ts:43-44 | the entry point starts from an empty ancestor set |
| SemanticSubject.StringText | infra/workflows/ac265-hosted-semantic-subject.ts:16 | a string is serialised to a text exactly when that is the shortest that reads as it |
| SemanticSubject.PlainStringText | infra/workflows/ac265-hosted-semantic-subject.ts:16 | a string without quotes, backslashes, control characters and lone surrogates is only put in quotes |
| SemanticSubject.AtomTexts | infra/workflows/ac265-hosted-semantic-subject.ts:15-21 | the texts of null, the booleans and numbers, and the refusal of other values |
| SemanticSubject.FailureExplained | infra/workflows/ac265-hosted-semantic-subject.ts:20-33 | the error names what is wrong where some walk from the value ends: an object met before, an object of another prototype, or an unsupported value |
| SemanticSubject.UnfoldingUnique | infra/workflows/ac265-hosted-semantic-subject.ts:20-40 | a graph unfolds into at most one tree |
| SemanticSubject.SerializeVerdict | infra/workflows/ac265-hosted-semantic-subject.ts:14-44 | accepted with a text exactly when the graph unfolds into a tree with that canonical text; shared subobjects are allowed |
| SemanticSubject.AcceptedExactlyWhenHarmless | infra/workflows/ac265-hosted-semantic-subject.ts:14-40 | accepted exactly when no walk from the value meets an object twice or an unsupported value |
| SemanticSubject.PlainGraphRejectedExactlyOnCycle | infra/workflows/ac265-hosted-semantic-subject.ts:22-24 | a graph of plain objects and arrays is rejected exactly when a cycle is reachable |
| SemanticSubject.SubjectTextFaithful | infra/workflows/ac265-hosted-semantic-subject.ts:43-44 | two accepted graphs get the same text exactly when their unfoldings are equal up to member order |
| SemanticSubject.SubjectBytesFaithful | infra/workflows/ac265-hosted-semantic-subject.ts:46-49 | the bytes that the subject's digest covers are the same exactly when the unfoldings are equal up to member order |
| ReportPublication.StepKeepsInv | infra/workflows/ac265-retained-report-writer.ts:217-275 | every step of every writer, a crash included, keeps the invariant of the file system |
| ReportPublication.TargetIsForever | infra/workflows/ac265-retained-report-writer.ts:258-264 | once the target exists it is never changed, replaced or removed |
| ReportPublication.PublicationIsAtomic | infra/workflows/ac265-retained-report-writer.ts:194-282 | at every moment of every run the target is absent, has its prior bytes, or has the complete bytes of exactly one writer |
| ReportPublication.SuccessIsTruthful | infra/workflows/ac265-retained-report-writer.ts:270-278 | a writer that reported success: the target holds exactly its bytes, then and ever after |
| ReportWriter.Disk.ReadTarget | infra/workflows/ac265-retained-report-writer.ts:136-172 | a bounded read that returns content returns the whole target, though others act between its reads |
| ReportWriter.WriteAll | infra/workflows/ac265-retained-report-writer.ts:245-257 | the write loop ends with everything written and the file closed, or with the removal pending |
| ReportWriter.WriteAtomically | infra/workflows/ac265-retained-report-writer.ts:194-282 | success means that the target holds exactly the bytes and was read back so last; prior content survives, and identical prior content is a success; it must succeed unless the size is refused, an operation failed, the first look found other content, or it found none and another writer's file is there now; no temporary file stays unless its removal failed |
| DeploymentTimeline.LatestAtMeaning | infra/workflows/ac266-manual-accessibility-staging-deployments.ts:109-131 | finds a status exactly when it is the only latest one up to the cutoff |
| DeploymentTimeline.VerifyTimeline | infra/workflows/ac266-manual-accessibility-staging-deployments.ts:145-244 | the loops accept with an instant exactly when that instant is established, said of the request's and the reports' own fields |
| DeploymentTimeline.VerdictExact | infra/workflows/ac266-manual-accessibility-staging-deployments.ts:145-244 | accepted with an instant exactly when ids are distinct, all considered statuses are plausible and the instant is established: the selected deployment's latest status is a success at both starts and both completions; the instant is that of a success, no later than either start and the run's end, and no status of it up to both starts is later; and no other deployment considered shows more than a queued or waiting status up to the last of the four |
| DeploymentTimeline.VerdictSound | infra/workflows/ac266-manual-accessibility-staging-deployments.ts:212-243 | an accepted timeline establishes all of that for the deployment selected |
| DeploymentTimeline.LatestSuccessImplied | infra/workflows/ac266-manual-accessibility-staging-deployments.ts:234-238 | the third test of each bound follows from the other two |
| DeploymentTimeline.VerdictOrderInsensitive | infra/workflows/ac266-manual-accessibility-staging-deployments.ts:145-244 | the verdict is the same for every order of deployments and of statuses |
| DeploymentTimeline.PruningExact | infra/workflows/ac266-manual-accessibility-staging-deployments.ts:188-194 | for every listing, the verdict without pruning is the pruned one when the pruned deployments are readable and inert up to the last bound, and a rejection otherwise |
| DeploymentTimeline.PruningSound | infra/workflows/ac266-manual-accessibility-staging-deployments.ts:188-194 | when no report starts after the last completion, readability of the pruned deployments alone decides that |
| DeploymentTimeline.PruningSoundOnReports | packages/contracts/src/content-schema-registry/operational-release-evidence-manual-accessibility-report.ts:113-118 | of reports that complete after they start none starts after the last completion, so on all that the schema lets through readability alone decides |
| DeploymentTimeline.PruningUnsoundBeyond | infra/workflows/ac266-manual-accessibility-staging-deployments.ts:188-194 | for all report windows where one starts after the last completion, which the report schema refuses before this code runs, a listing with a readable but active late deployment that only pruning accepts |
| DeploymentTimeline.PruningHidesUnreadable | infra/workflows/ac266-manual-accessibility-staging-deployments.ts:188-194 | for all report windows, a listing with an unreadable late deployment that only pruning accepts |
| DeploymentTimeline.SelectsUniquelyLatestSuccess | infra/workflows/ac265-candidate-provenance-github-deployment.ts:44-86 | a status is selected exactly when it is a success strictly later than every other report |
| Pagination.CollectPages | infra/workflows/ac265-candidate-provenance-github-api.ts:22-61 | returns the items of the pages up to the first short one, exactly when all pages are acceptable, announced totals agree and the last one matches; otherwise fails; the requests on record are pages 1 to some k of at most ten, each made because the ones before were full |
| Pagination.CollectLists | infra/workflows/ac266-manual-accessibility-staging-deployments.ts:88-107 | the collector that accepts plain lists only has that outcome and makes those requests on servers cut down to plain lists |
| Pagination.OutcomeUnique | infra/workflows/ac265-candidate-provenance-github-api.ts:29-60 | a server determines the outcome |
| Pagination.HonestServerIsRead | infra/workflows/ac265-candidate-provenance-github-api.ts:22-61 | a server holding N items is read exactly and in order when N is below 1000, and fails otherwise |
| EmailDiagnostics.SummarizeWindow | infra/workflows/ac209-email-diagnostics.ts:288-360 | the nine counters and the id set count what they name, and the classification is the one the rows have by definition |
| EmailDiagnostics.Diagnose | infra/workflows/ac209-email-diagnostics.ts:258-267 | the diagnostic is unavailable exactly on a wrong window or a row it refuses, field by field; else its verdict predicts the gate's: page truncated, unique match with the same event, or not unique |
| EmailDiagnostics.ClassificationExplains | infra/workflows/ac209-email-diagnostics.ts:269-286 | the branch order decides the defined classification; zero rows is shown only for an empty page, so the last branch is never reached |
| EmailDiagnostics.CountersNest | infra/workflows/ac209-email-diagnostics.ts:295-359 | within and outside add up to the rows; matched, identity and single-field counts are nested |
| EmailDiagnostics.GateMeaning | infra/workflows/ac209-email-sending-analytics.ts:466-487 | on readable rows below the page limit the gate returns an event exactly when one row matches |
| EmailDiagnostics.GateRefuses | infra/workflows/ac209-email-sending-analytics.ts:238-271 | the gate refuses a window that is empty or longer than an hour, a page of 50 rows, and rows with an address over 512 characters, an id that is empty, too long or not printable, or a flag other than 0 and 1, each with its own code |
| EmailDiagnostics.UniqueMatchIffGateAccepts | infra/workflows/ac209-email-sending-analytics.ts:238-271 | over all row lists: the diagnostic reads all rows and shows a unique match exactly when the gate accepts and no subject is over-long and no status empty |
| EmailDiagnostics.ReadersDisagree | infra/workflows/ac209-email-diagnostics.ts:233-249 | a row with an empty status, or with an over-long subject, makes the diagnostic fail as unavailable while the gate returns its event |
| EmailDiagnostics.ExpectedIdDecides | infra/workflows/ac209-email-sending-analytics.ts:475-476 | after a unique match an expected message id decides the gate by one comparison |
| EmailDiagnostics.ExpectedIdRescuesAmbiguity | infra/workflows/ac209-email-sending-analytics.ts:475-476 | with an expected id the gate can accept where the diagnostic shows several matches |
| RoutingEvents.TallyLabels | infra/workflows/ac209-email-routing-event.ts:58-74 | the map loop and the sort give each occurring label its count once, by descending count and then as digest texts collate |
| RoutingEvents.SummarizeEvents | infra/workflows/ac209-email-routing-event.ts:92-142 | fails on a page of 50 rows or a malformed row, else describes the in-window rows field by field, said of the rows as they came: counts, both tallies, and exactly the digests of the usable ids |
| RoutingEvents.DistributionForgetsOrder | infra/workflows/ac209-email-routing-event.ts:92-142 | two orders of the same rows give the same distribution in every field |
| RoutingEvents.DistributionAccounts | infra/workflows/ac209-email-routing-event.ts:111-141 | both tallies sum to the in-window rows; distinct digests and missing ones together do not exceed them; coverage is complete exactly when none is missing |
| RoutingEvents.CompleteCoverageShowsAbsence | infra/workflows/ac209-email-routing-event-schema.ts:123-130 | with complete coverage a digest that is not listed proves that no in-window row carried the identifier |
| Sorting.SortedUnique | infra/workflows/ac209-email-routing-event.ts:69-73 | two lists sorted by an asymmetric relation with the same elements are equal |
| SendingGroups.QueriedBucketsOverlap | infra/workflows/ac209-email-sending-groups.ts:152-166 | the queried buckets are exactly the hours that share an instant with the window |
| SendingGroups.BucketCount | infra/workflows/ac209-email-sending-groups.ts:143-166 | at most 169 buckets are queried, and that many can be needed |
| SendingGroups.RoundedIffWider | infra/workflows/ac209-email-sending-groups.ts:167-169 | rounding is reported exactly when the queried hours together differ from the window |
| SendingGroups.UnionIsCloseCover | infra/workflows/ac209-email-sending-groups.ts:152-166 | nothing of the window is left out and nothing an hour or more outside is let in |
| SendingGroups.AcceptedTotalIsTrueSum | infra/workflows/ac209-email-sending-groups.ts:225-233 | a rounded sum of any number of safe counts passes the safe-integer test exactly when the true sum does, and equals it |
| SendingGroups.CollectHourlyTotal | infra/workflows/ac209-email-sending-groups.ts:201-233 | accepts exactly pages below the bound, without repeated buckets, whose true total is safe, and returns that total |
| SendingGroups.DailyTotalIsTrueSum | infra/workflows/ac209-email-routing-day-counts.ts:166-181 | the daily total is accepted exactly when the true sum is safe, and equals it |
| ArchivePolicy.AncestorIsProperPrefix | infra/workflows/ac265-hosted-artifact-archive-policy.ts:127-131 | the string prefix test is the proper-prefix relation on path segments |
| ArchivePolicy.ValidateMemberName | infra/workflows/ac265-hosted-artifact-archive-policy.ts:76-110 | accepts exactly the safe relative names of the right kind within the byte limit |
| ArchivePolicy.MemberNameExactly | infra/workflows/ac265-hosted-artifact-archive-policy.ts:76-110 | the names accepted are exactly the joins of safe segments, with a slash after a directory |
| ArchivePolicy.Utf8LengthExactly | infra/workflows/ac265-hosted-artifact-archive-policy.ts:83-84 | the length compared with the bound is that of the name's UTF-8 bytes |
| ArchivePolicy.AssertUniqueAndNonConflicting | infra/workflows/ac265-hosted-artifact-archive-policy.ts:112-144 | the quadratic loops accept exactly when no two members conflict; the exact-path tests and the second duplicate test never decide alone |
| ArchivePolicy.AcceptedExactlyWhenTree | infra/workflows/ac265-hosted-artifact-archive-policy.ts:112-144 | that is exactly when folded paths are distinct and some file tree holds every member at its folded path with its kind |
| ArchivePolicy.AcceptanceForgetsOrder | infra/workflows/ac265-hosted-artifact-archive-policy.ts:112-144 | acceptance is the same for every order |
| ArchivePolicy.SublistsAccepted | infra/workflows/ac265-hosted-artifact-archive-policy.ts:242-284 | acceptance passes to every repetition-free list of accepted names |
| ArchivePolicy.LimitsMeant | infra/workflows/ac265-hosted-artifact-archive-policy.ts:146-169 | limits are in force exactly when each is the one given or its default, whole where it counts, positive and within its cap |
| ArchivePolicy.SnapshotPolicy | infra/workflows/ac265-hosted-artifact-archive-policy.ts:171-205 | succeeds exactly on accepted limits and valid, conflict-free allowlists with required names among them; required names need only be free of repeats |
| ArchivePolicy.ValidateMembers | infra/workflows/ac265-hosted-artifact-archive-policy.ts:242-284 | under such a policy accepts exactly the archives within the limits whose names are allowed, unrepeated and complete |
| ArchivePolicy.DensityExactly | infra/workflows/ac265-hosted-artifact-archive-policy.ts:269-274 | a member is too dense exactly when it holds more than the ratio times its stored size |
| ArchivePolicy.ImplicitDirectories | infra/workflows/ac265-hosted-artifact-archive-policy.ts:286-298 | collects exactly the proper ancestors of file members |
| ArchivePolicy.ImplicitDirectoriesAreDirectories | infra/workflows/ac265-hosted-artifact-archive-policy.ts:286-298 | of an accepted list no implicit directory is a file, not even up to folding, and each is a directory of every realising tree |
| LockedOrder.NormalizeSorts | infra/workflows/ac265-hosted-run-manifest-crypto.ts:35-57 | sorts by locked rank, keeps every item and the order of items of one rank |
| LockedOrder.NormalizeIdempotent | infra/workflows/ac265-hosted-run-manifest-crypto.ts:49-57 | normalising twice is normalising once |
| LockedOrder.NormalizeForgetsOrderIff | infra/workflows/ac265-hosted-run-manifest-crypto.ts:35-57 | input order is forgotten exactly on lists whose different items have different ranks |
| HostedHandles.PrefixTexts | infra/workflows/ac265-hosted-runner-contract-derivations.ts:51-59 | the texts of the reference patterns before the UUID, role by role and kind by kind |
| HostedHandles.DeriveSessionHandles | infra/workflows/ac265-hosted-runner-contract-derivations.ts:95-127 | succeeds exactly on nine handles that bind their own role and digest without repeating a role; the repeated-reference test and the final presence loop never decide |
| HostedHandles.SessionHandlesExactly | infra/workflows/ac265-hosted-runner-contract-derivations.ts:95-127 | handles derive exactly when they are nine, no two of one role, each the digest of a reference that is its role's prefix and a UUID |
| HostedHandles.NineDistinctRolesAreAll | infra/workflows/ac265-hosted-runner-contract-derivations.ts:124-125 | nine distinct roles are all roles |
| HostedHandles.SessionHandlesBijective | infra/workflows/ac265-hosted-runner-contract-derivations.ts:95-127 | the derived record is a bijection between roles and handles with distinct references |
| HostedHandles.SessionHandlesForgetOrder | infra/workflows/ac265-hosted-runner-contract-derivations.ts:95-127 | two lists of handles derive the same record exactly when one is a reordering of the other |
| HostedHandles.DeriveResourceRefs | infra/workflows/ac265-hosted-runner-contract-derivations.ts:137-162 | the nested loops compute the manifest, or fail exactly on an unbound role or kind, an unknown reference or a kind with two references |
| HostedHandles.ResourceRefsExactly | infra/workflows/ac265-hosted-runner-contract-derivations.ts:129-162 | resources derive exactly when every role is bound and each kind has exactly one reference bound to any role, with its prefix and a UUID, and there are no others |
| HostedHandles.ManifestIsExactlyTheBindings | infra/workflows/ac265-hosted-runner-contract-derivations.ts:129-162 | the manifest lists exactly the references the mapping binds, one of each kind, in locked order, digested and distinct |
| HostedHandles.DerivedManifestIsNormal | infra/workflows/ac265-hosted-run-manifest-crypto.ts:49-57 | every order of a derived manifest normalises back to it |
| RunnerContract.ComposedPassesGate | infra/workflows/ac265-hosted-runner-contract-composer.ts:113-263 | whenever composition succeeds, the gate's verdict on the contract is decided by placeholder names alone, now and after further sources are authenticated |
| RunnerContract.GateAcceptsExactly | infra/workflows/ac265-hosted-runner-policy-v1.ts:155-221 | for composable sources the gate accepts exactly the contracts that agree with the composed one outside session handles, resource references, controls and the lease chosen |
| RunnerContract.GateExactly | infra/workflows/ac265-hosted-runner-policy-v1.ts:155-221 | the gate accepts exactly when both pairs are authenticated, belong together and are in their windows, no name is a placeholder, the contract is for this run, identity and scope, both bindings are the mapping's, the parameters are the locked ones and the lease is digested |
| RunnerContract.GateNamesDefect | infra/workflows/ac265-hosted-runner-policy-v1.ts:155-221 | each refusal names a group of fields in which there is a defect |
| RunnerContract.ContractFixesSubstance | infra/workflows/ac265-hosted-runner-contract-composer.ts:113-263 | two requests compose to the same contract exactly when they agree on run, identity, both bindings, target scope, lease and the handles up to order: a contract fixes these and leaves open names, approval instants, attestations, start and cutoff |
| RunnerContract.FinalChecksNeverReject | infra/workflows/ac265-hosted-runner-contract-composer.ts:218-255 | what the derivations produce always meets the contract schema's cross-field rules |
| RunnerContract.ComposesExactly | infra/workflows/ac265-hosted-runner-contract-composer.ts:113-263 | composition succeeds exactly on sources that are signed, name one run, identity, authorization and target in their own fields, derive, and keep approval, issue, start, expiry and cutoff in order for both attestations, with a lease of exactly 60 s live at the start; the schema, the final comparisons and the registry never decide |
| RunnerContract.ComposedOf | infra/workflows/ac265-hosted-runner-contract-composer.ts:218-246 | the composed contract, part by part, its fixed parts spelled out, and the pairs it authenticates |

## Where the code and a natural reading differ

- The diagnostic's row reader is stricter than the gate's (subject length, empty status), so agreement holds exactly
  on rows without that gap: `EmailDiagnostics.UniqueMatchIffGateAccepts`, with the failing row in `ReadersDisagree`.
- Pruning the deployment timeline can hide two things: a late deployment whose statuses cannot be read, for any report
  windows, and a late one that is active, when a report starts after the last completion. It hides nothing else:
  `DeploymentTimeline.PruningExact`, with `PruningHidesUnreadable` and `PruningUnsoundBeyond`. Windows of the second
  kind never get this far: the report schema refuses a report that does not complete after it starts
  (`packages/contracts/src/content-schema-registry/operational-release-evidence-manual-accessibility-report.ts:113`),
  and the verifier is called with parsed reports only. `PruningSoundOnReports` covers all windows it lets through.
- The manifest's key comparison is named for code points but compares code units; where the two orders differ is stated
  exactly in `TextOrder.OrdersDifferExactly` and `Members.SortsAgreeExactly`. Each order is canonical on its own.

## Left out

- HTTP transport, time limits, aborts, response decoding and the shape of GraphQL envelopes: a call succeeds or fails,
  and an injected fetch throws no error of the exercise's own class.
- Zod schemas and regular expressions on single fields; of the hosted contract's schema only the rules across fields
  are kept, of a UUID only a predicate.
- SHA-256, Ed25519 and key parsing: parameters. The weak maps of authenticated pairs are sets of pairs of values, so
  object identity is not modelled.
- A marker that arrives after a publish call has failed and the cleanup has begun: excluded by the assumption above.
- Getters, proxies, sparse arrays and symbols in serialised objects; numbers are their JSON texts. White space in JSON
  input, which no canonical text contains.
- The scanner of `strict-json-object-members.ts` that finds a repeated member: the parsers here ask for distinct keys at
  every depth instead, and have no depth limit. The size limit of the manifest parser.
- Symbolic links, permissions, durability after power loss, and a collision of temporary names.
- QueueListing.ListQueues: diagnostics and status codes of errors are reduced to the boundary that failed.
- ArchivePolicy.ValidateMembers: the compression ratio is a quotient of reals, not of doubles; names are sequences of
  Unicode scalar values.
- HostedHandles.NormalizeResourceRefs: values that are not arrays pass through unchanged and are left out.
- SendingGroups.CollectHourlyTotal: the key of a bucket is a pair, not the joined text of hour and digest.
- Pagination.CollectPages: how the page number is put into the request path.
- Freezing of results, report formatting, logging, command-line and environment handling.
- Retained-report slots, receipts and closed code vocabularies: finite tables that would add only easy members.

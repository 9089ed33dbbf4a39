# Squadron: verified models of its core algorithms

Squadron runs a fleet of OpenTelemetry collectors. Most of it is wiring and I/O; this project models
the parts that decide something and proves what they promise, for all inputs and all runs.

| file | what it models |
|---|---|
| `JsonBlock.dfy` | cutting one JSON object out of a model's reply |
| `ChangeWindow.dfy` | recurring blackout windows |
| `ChainEncoding.dfy`, `AuditChain.dfy` | the tamper-evident audit chain, unkeyed and keyed |
| `AuditExport.dfy`, `ExportCSV.dfy` | the offline auditor's verdict and its CSV reader |
| `DiscoveryPlan.dfy`, `FanOut.dfy` | splitting, proposing and merging a discovery plan under bounded concurrency |
| `Citations.dfy`, `AskDemo.dfy` | citation tags in answers, and the keyless responder that writes them |
| `LeaderElection.dfy` | the single-instance elector: registrations, shutdown, draining |
| `Signing.dfy`, `ActionRunner.dfy`, `Capabilities.dfy`, `Executor.dfy` | signed actions: sign, verify, dedupe, gate, execute |
| `ActionCatalog.dfy` | the registry of action types |
| `LoadDispatch.dfy`, `Rollup.dfy` | pacing of the load generator, tiling of the rollup windows |
| `GoStrings.dfy`, `Counting.dfy` | the string operations and counting facts the others share |

Code that works by changing things is a method (a class where the source has an object) proved
against a specification function or predicate; the theorems are about that specification. Two
protocols with real concurrency, the fan-out and the elector, are step relations: a run is any
sequence of enabled steps, and a theorem about every run is an induction over it. Hash functions,
signatures, JSON encoding, number parsing, per-type matchers and the outcome of calls and commands
are parameters; what a theorem needs of them is a hypothesis of that theorem. For SHA-256 and HMAC no
collision resistance is assumed: the tamper-evidence theorems hand out the two clashing rows instead.

Where the code and its comments disagree, the model follows the code:

- A blackout window whose end equals its start is empty; the comments say it wraps
  (`WrapPromiseKeptExactly`).
- The keyed chain compares the recorded head hash only when the head is the tip; the comment says the
  row at the head's seq is always compared (`HeadRowComparedOnlyAtTip`). Of a chain without keyed
  rows a recorded head pins the length only (`HeadPinsUnkeyedLength`).
- Keyed rows may go back in time across an empty timestamp (`TimestampsAscendExactly`).
- The interface says that Shutdown waits for every run. A call that finds the elector closed while
  a run is going does not (`ShutdownWaitsExactly`).
- The tags are stripped from an answer in one pass, so the text around them can join into a new one
  (`StrippedExactly`).
- A dry-run-only runner stops the phase `execute`, while the executor treats every phase other than
  `dry_run` as a real action (`DryRunOnlyHoldsExactly`).
- A fenced reply whose first newline comes after its object's start loses the object
  (`ExtractsObject`).
- The context keys of Ask Squadron are read as `kind:id`; the comment on the type says `kind.id`.

## Model

| member | source | states |
|---|---|---|
| JsonBlock.ExtractJSONBlock | internal/ai/ai.go:970-1023 | returns exactly the slice of the input that the offset specification names |
| JsonBlock.CutObject | internal/ai/ai.go:982-1022 | the loop over depth, inString and escape stops where the recursive scanner does |
| JsonBlock.NeutralValue | internal/ai/ai.go:998-1018 | scanning any RFC 8259 value at depth at least one, however nested and spaced, with braces and escapes inside strings, ends in the state it began in |
| JsonBlock.ExtractsObject | internal/ai/ai.go:958-1023 | for every object text, every preamble without an opening brace and every suffix, the part returned is the object if and only if the input is not fenced or its first newline does not come after the object's start |
| JsonBlock.BlockExtracted | internal/ai/ai.go:971-1018 | the same for every block a scan closes at its end, JSON or not |
| JsonBlock.FenceStripped | internal/ai/ai.go:971-980 | a fence is stripped with its language line, its closing mark and the white space inside it |
| JsonBlock.UnclosedComesBack | internal/ai/ai.go:981-1022 | without a closing brace everything from the first opening brace comes back, or the whole text when there is none |
| JsonBlock.ExtractPrinted | internal/ai/ai.go:970-1023 | round trip on the returned text |
| JsonBlock.FenceWithoutLineLosesObject | internal/ai/ai.go:972-977 | a concrete fenced input whose object is lost |
| JsonBlock.ExtractIdempotent | internal/ai/ai.go:981-1022 | extracting from an extracted object returns all of it |
| ChangeWindow.ClockReadBack | extension/changewindow/changewindow.go:203-213 | every time of day written HH:MM parses to itself |
| ChangeWindow.ParsesExactly | extension/changewindow/changewindow.go:203-213 | a text is read as a time of day if and only if, white space apart, it is that time written HH:MM |
| ChangeWindow.RangeIncludesEnds | extension/changewindow/changewindow.go:109-120 | both ends of the effective range belong to it, and nothing outside does |
| ChangeWindow.KnownWeekdays | extension/changewindow/changewindow.go:142-166 | weekdays count from Sunday, are pinned at two dates and cycle through seven |
| ChangeWindow.IsActive | extension/changewindow/changewindow.go:108-167 | active exactly when now is in the effective range and some day among all integers has a listed weekday and an occurrence containing the local time; unreadable bounds are ignored and unreadable times or zones make it inactive |
| ChangeWindow.OnlyTodayOrYesterday | extension/changewindow/changewindow.go:139-166 | checking today, and yesterday for a wrapping window, loses no day |
| ChangeWindow.DowMatches | extension/changewindow/changewindow.go:215-225 | the weekday scan decides membership, with an empty list meaning every day |
| ChangeWindow.FirstActive | extension/changewindow/changewindow.go:172-179 | the first active window, or none when none is active |
| ChangeWindow.WrapPromiseKeptExactly | extension/changewindow/changewindow.go:41-43 | the documented wrap rule holds at every moment if and only if start and end differ or no weekday is listed; equal times are never active |
| ChangeWindow.WholeMinutes | extension/changewindow/changewindow.go:141-163 | activity is constant within a local minute |
| ChangeWindow.ActiveMinuteIsWeekly | extension/changewindow/changewindow.go:139-166 | the minute-level description used for counting is the meaning of the window |
| ChangeWindow.WeeklyPeriod | extension/changewindow/changewindow.go:139-166 | activity has period seven days |
| ChangeWindow.WeekTotal | extension/changewindow/changewindow.go:139-166 | any seven days from any minute hold exactly listed weekdays times window length modulo a day active minutes |
| ChainEncoding.FieldReadable | internal/audit/chain/chain.go:38-41 | a length-prefixed field can be read back whatever follows it |
| ChainEncoding.DecIsDecimal | internal/audit/chain/chain.go:49 | numbers are rendered in decimal without leading zeros |
| ChainEncoding.MessagesLaidOut | internal/audit/chain/chain.go:36-53 | the fields of both hash inputs and their order |
| ChainEncoding.LegacyMsgInjective | internal/audit/chain/chain.go:36-53 | the unkeyed hash input is the same exactly for rows with the same content: no field boundary can shift |
| ChainEncoding.KeyedMsgInjective | internal/audit/chain/chain.go:268-286 | the keyed hash input is the same exactly for rows with the same content and timestamp |
| ChainEncoding.HeadMsgInjective | internal/audit/chain/chain.go:312-323 | the high-water-mark input determines tenant, seq and hash |
| ChainEncoding.RowIsNeverHead | internal/audit/chain/chain.go:310-323 | no row has the same MAC input as a high-water-mark, even a row whose id is the domain tag |
| AuditChain.Verify | internal/audit/chain/chain.go:97-163 | reports the tip of a sound chain, or the first defective row, its defect and the number of sound rows before it |
| AuditChain.VerifySealed | internal/audit/chain/chain.go:352-435 | the same for the keyed walk, with downgrade, missing key, backdating, and the head checked last |
| AuditChain.LegacyVerdictUnique | internal/audit/chain/chain.go:97-163 | the specification of Verify leaves no freedom |
| AuditChain.SealedVerdictUnique | internal/audit/chain/chain.go:352-435 | nor does that of VerifySealed, for any head |
| AuditChain.VerifyAcceptsExactly | internal/audit/chain/chain.go:97-163 | the unkeyed walk accepts a chain if and only if every row has the hash of its content, names the hash before it and has the next number, wherever the chain begins; the result is then given in full |
| AuditChain.VerifySealedAcceptsExactly | internal/audit/chain/chain.go:331-435 | the keyed walk accepts exactly the chains that are sealed row by row, link, count on, stay keyed once keyed and do not go back between two keyed rows that both have a timestamp, unkeyed prefix included, with no head or with an authentic one that the chain reaches and that names the tip when it is the tip |
| AuditChain.DeletionFound | internal/audit/chain/chain.go:380-386 | a deleted middle row is found at the row after it, as a gap |
| AuditChain.EditFound | internal/audit/chain/chain.go:374-390 | a row edited in place is found where it stands, or its hash clashes |
| AuditChain.TruncationFound | internal/audit/chain/chain.go:300-303 | newest rows that were deleted are found against a head that names the tip |
| AuditChain.LegacyRowsKeepVerifying | internal/audit/chain/chain.go:165-172 | on rows sealed before the keyed cutover both walks give the same verdict, in every field |
| AuditChain.LinkedAgree | internal/audit/chain/chain.go:120-148 | two linked chains with one tip agree back from the tip up to the first clash of hashes |
| AuditChain.SameTipSameHistory | internal/audit/chain/chain.go:87-163 | two verifying chains with the same tip hash have the same content in every row both cover, or exhibit a SHA-256 collision between two of those rows |
| AuditChain.SameTipSameSealedHistory | internal/audit/chain/chain.go:331-343 | the same across the keyed cutover, timestamps of keyed rows included: keyed rows pin the unkeyed prefix |
| AuditChain.KeyedRowsAreSuffix | internal/audit/chain/chain.go:338-342 | a sound chain never goes back to the unkeyed scheme and has consecutive numbers |
| AuditChain.AcceptedKeyedRowsAreGenuine | internal/audit/chain/chain.go:259-265 | with an unforgeable MAC every keyed row of an accepted chain is one the key holder sealed, for whatever tenants, and the accepted head one it recorded |
| AuditChain.AcceptedChainIsGenuine | internal/audit/chain/chain.go:331-342 | an accepted chain with a keyed tip agrees with the chain the key holder built up to that row, unkeyed rows before the cutover included, in every row both cover, or exhibits a clash |
| AuditChain.AcceptedChainReachesHead | internal/audit/chain/chain.go:345-347 | an accepted chain reaches the recorded head, and its keyed row of the head's tenant there has the recorded hash, for a key that serves any number of tenants |
| AuditChain.HeadRowComparedOnlyAtTip | internal/audit/chain/chain.go:345-347 | the promise that the row at the recorded seq hashes to the recorded head, kept exactly at the tip: a sound chain whose row there has another hash is accepted if and only if that row is not the tip |
| AuditChain.HeadPinsUnkeyedLength | internal/audit/chain/chain.go:335-347 | for any contents, the chain resealed over them without the key is accepted against an authentic head if and only if it is longer than the head's number, or as long with the recorded tip |
| AuditChain.AdjacentOutOfOrder | internal/audit/chain/chain.go:343-344 | two adjacent keyed rows of a sound chain are out of order exactly when only the earlier one has a timestamp |
| AuditChain.TimestampsAscendExactly | internal/audit/chain/chain.go:343-344 | from the first keyed row on, timestamps never decrease between any two rows if and only if no empty one follows one that is not |
| AuditChain.BackdatedAcrossEmpty | internal/audit/chain/chain.go:391-396 | a sound keyed chain whose third row is older than its first |
| AuditExport.VerifyExport | cmd/squadron-audit-verify/main.go:133-176 | the outcome is the specified one, and attested rows plus extra rows are all rows |
| AuditExport.PassesExactly | cmd/squadron-audit-verify/main.go:133-176 | for every verifier that behaves like chain.Verify and every export: it passes if and only if the rows up to the attested head are a chain, late beginnings included, whose last seq and hash are the attested ones; every other field of the verdict too |
| AuditExport.ContinuesExactly | cmd/squadron-audit-verify/main.go:172-174 | rows beyond the head are reported as a sound continuation if and only if there are some and the whole export is a chain |
| AuditExport.CutAtHead | cmd/squadron-audit-verify/main.go:144-156 | the cutting loop keeps exactly the rows up to the head and counts the others |
| AuditExport.SortedSorts | cmd/squadron-audit-verify/main.go:134-136 | the sort yields the same rows in ascending order |
| AuditExport.SortedIsStable | cmd/squadron-audit-verify/main.go:136 | rows that share a seq keep their order |
| AuditExport.UpToSorted | cmd/squadron-audit-verify/main.go:136-153 | cutting at the head commutes with sorting |
| AuditExport.LaterRowsDoNotMatter | cmd/squadron-audit-verify/main.go:138-143 | for any verifier, exports with the same rows up to the head differ at most in the two fields about later rows |
| AuditExport.LaterRowIsCut | cmd/squadron-audit-verify/main.go:147-152 | a later row inserted anywhere is such a change |
| AuditExport.RowOrderDoesNotMatter | cmd/squadron-audit-verify/main.go:130-136 | with distinct seqs the whole outcome is the same for every permutation of the rows |
| AuditExport.PassingExportsAgree | cmd/squadron-audit-verify/main.go:124-127 | two exports that pass against one attestation agree on every attested row they share, or exhibit a SHA-256 collision |
| ExportCSV.ParseExportCSV | cmd/squadron-audit-verify/main.go:224-273 | empty export, the first of the required columns that is missing, first bad seq with its line, or one row per record |
| ExportCSV.IndexHeader | cmd/squadron-audit-verify/main.go:235-238 | the header map holds the last column of each name |
| ExportCSV.ColumnNameIs | cmd/squadron-audit-verify/main.go:234-238 | a header cell names its column whatever white space and byte-order mark surround the name |
| ExportCSV.ReadByName | cmd/squadron-audit-verify/main.go:250-271 | every field of a row comes from the column of its own name |
| ExportCSV.ReadBack | cmd/squadron-audit-verify/main.go:234-271 | rows written under any header that has the required columns, in any order, repeated or among others, are read back unchanged |
| ExportCSV.ParseWritten | cmd/squadron-audit-verify/main.go:224-273 | the same law on the parser |
| DiscoveryPlan.InventorySize | internal/ai/proposer_discovery_chunk.go:47-64 | the tiers counted are the cardinality of the set of non-empty tiers, the resources the sum of all nine lists |
| DiscoveryPlan.KnownScopes | internal/ai/proposer_discovery.go:306-320 | the scope of each provider, with the account as the default |
| DiscoveryPlan.SplitByTier | internal/ai/proposer_discovery_chunk.go:66-125 | one chunk per non-empty tier, in tier order |
| DiscoveryPlan.SplitConserves | internal/ai/proposer_discovery_chunk.go:66-125 | absorbing the chunks into the bare context gives the original back |
| DiscoveryPlan.SplitChunks | internal/ai/proposer_discovery_chunk.go:66-125 | every chunk is one whole tier with all else empty and the scope unchanged; there are as many as tiers, in tier order |
| DiscoveryPlan.FullSplit | internal/ai/proposer_discovery_chunk.go:66-125 | an inventory with every tier splits into the nine named chunks in this order |
| DiscoveryPlan.ValidateDiscoveryPlan | internal/ai/proposer_discovery.go:795-815 | accepts exactly one to ten steps that all name the scope and carry a non-blank snippet |
| DiscoveryPlan.DecideChunk | internal/ai/proposer_discovery_chunk.go:264-312 | a reply is refused exactly when it is not declined and not a valid plan; an accepted one is given field by field, and a declined one plans nothing |
| DiscoveryPlan.MergeDiscoveryResults | internal/ai/proposer_discovery_chunk.go:196-227 | sums, concatenations, first model, texts and declined flag of all replies |
| DiscoveryPlan.MergedOne | internal/ai/proposer_discovery_chunk.go:196-227 | merging one reply changes nothing but white space, the kind and the reason of one not declined |
| DiscoveryPlan.MergedConcat | internal/ai/proposer_discovery_chunk.go:196-227 | merging two lists of replies is merging their merges: steps and evidence in order, usage summed, texts joined, the first model kept |
| DiscoveryPlan.MergedIsSound | internal/ai/proposer_discovery_chunk.go:196-227 | the merge is declined exactly when it has no steps, and every step carries the scope and a snippet |
| FanOut.Collect | internal/ai/proposer_discovery_chunk.go:167-181 | the slots collected in order: merged results, or the last error when all failed |
| FanOut.RunInv | internal/ai/proposer_discovery_chunk.go:145-165 | every interleaving keeps semaphore, wait group and slots in step with the goroutines |
| FanOut.AtMostFourCalls | internal/ai/proposer_discovery_chunk.go:38-44 | in every interleaving at most four calls are in flight |
| FanOut.SomeStepEnabled | internal/ai/proposer_discovery_chunk.go:149-165 | until the caller returns some step is enabled |
| FanOut.RunsAreBounded | internal/ai/proposer_discovery_chunk.go:149-165 | n chunks take five steps each and the caller one; the caller has returned exactly then |
| FanOut.ScheduleIndependent | internal/ai/proposer_discovery_chunk.go:143-165 | every slot pair holds exactly what its own call answered, and the returned value is the same for every schedule |
| FanOut.FanOutValue | internal/ai/proposer_discovery_chunk.go:167-181 | that value is the merge of the successful answers in tier order, or the last failure |
| FanOut.AnswersConcat | internal/ai/proposer_discovery_chunk.go:167-181 | the successful answers of two lists of calls follow one another, and the later failure wins |
| FanOut.PlanCalls | internal/ai/proposer_discovery_chunk.go:127-135 | the inventory is split if and only if it has three tiers or more, or two with more than twelve resources; the calls share it out without loss |
| FanOut.PipelineIsSound | internal/ai/proposer_discovery_chunk.go:127-312 | for every inventory shared out among its calls, split or not, every proposer and schedule: the final plan is declined exactly when empty, keeps the scope, and has the steps and the summed usage of the calls that succeeded; there is none exactly when no call did |
| Citations.ParseAskAnswer | internal/ai/ask.go:251-296 | the loop computes the specified answer and first-occurrence list |
| Citations.ParseRendered | internal/ai/ask.go:246-296 | for any plain texts with tags between them: the citations are the non-blank tags, deduplicated in order, and every character that is not white space outside tags is kept in order |
| Citations.DedupKeepsOrder | internal/ai/ask.go:262-285 | citations stand in the order in which their tags first occur |
| Citations.CollapseHalvesRuns | internal/ai/ask.go:288-292 | collapsing halves every run of spaces, rounding up, and changes nothing else |
| Citations.CitationsAreClean | internal/ai/ask.go:262-285 | for any text: citations are distinct, trimmed and non-blank, and hold no closing character |
| Citations.KeyInjective | internal/ai/ask.go:270-272 | the dedup key tells citations apart |
| Citations.StrippedExactly | internal/ai/ask.go:246-296 | for every rendered answer, the returned answer is free of tags if and only if the text around the tags spells none: collapsing spaces and trimming neither make nor break one |
| Citations.StrippedAnyText | internal/ai/ask.go:251-296 | the same for any text: the returned answer is free of tags if and only if what the walk kept spells none |
| Citations.TagsAreFound | internal/ai/ask.go:259-291 | the walk lists a tag exactly when a character-by-character search for an opening, a colon and a closing bracket succeeds |
| Citations.StrippingMayFormATag | internal/ai/ask.go:278-294 | an answer that is returned with a tag in it |
| AskDemo.AskDemoMode | internal/ai/ask.go:125-202 | no answer exactly for a blank question; otherwise, for every order of the context, the kinds cited are exactly those the question asks for that the context has, each citation names a row of it, there is a text, and parsing it gives the citations back exactly when the ids can be cited |
| AskDemo.FirstIDs | internal/ai/ask.go:131-139 | every kind with a key gets an id that occurs with it |
| AskDemo.DemoRoundTrip | internal/ai/ask.go:150-201 | parsing the written answer yields its citation list if and only if every id is trimmed, non-empty and free of the closing bracket |
| LeaderElection.RunInv | extension/leaderelection/leaderelection.go:81-137 | mutex, wait group, closed flag and context stay consistent over every interleaving |
| LeaderElection.WaitGroupCountsUnfinished | extension/leaderelection/leaderelection.go:106-113 | the wait group counts exactly the registered runs that have not finished |
| LeaderElection.NoneRegistersAfterClose | extension/leaderelection/leaderelection.go:102-105 | once closed, no later state has a new registration |
| LeaderElection.AfterAnyShutdown | extension/leaderelection/leaderelection.go:65-70 | after any returned Shutdown, RunSingleton is a no-op and a run that begins gets a cancelled context |
| LeaderElection.ShutdownDrains | extension/leaderelection/leaderelection.go:116-137 | when Shutdown returns by its done channel every registered run has returned, for good |
| LeaderElection.SomeStepEnabled | extension/leaderelection/leaderelection.go:99-137 | no deadlock, without relying on a caller's timeout |
| LeaderElection.RunsAreBounded | extension/leaderelection/leaderelection.go:99-137 | every run of the protocol ends |
| LeaderElection.ShutdownWaitsExactly | extension/leaderelection/leaderelection.go:65-68 | the promise that Shutdown waits for every run function to return: in every reachable state, a call that has taken the lock answers, on every continuation and without its timeout, only when no run is going, if and only if the elector is not closed yet or no run is going |
| LeaderElection.SecondShutdownDoesNotWait | extension/leaderelection/leaderelection.go:120-123 | a run in which a second Shutdown returned while a singleton is going |
| Signing.Sign | internal/actions/signer.go:91-108 | stamps zero times and signs the stamped payload |
| Signing.StampKeepsTimes | internal/actions/signer.go:91-108 | times that were given are kept; zero times become now and five minutes later; nothing else changes |
| Signing.SignedVerifies | internal/actions/signer.go:148-170 | what Sign produces verifies exactly until it expires |
| Signing.ProblemsNamed | internal/actions/signer.go:141-170 | which problem is named: missing signature first, then expiry, then an undecodable or a wrong signature |
| Signing.VerifiedWasSigned | internal/actions/signer.go:141-170 | a verified request that is no forgery was signed with its ids, times and phase, and if signed with zero times verifies no later than five minutes after issue |
| ActionRunner.Runner.HandleOne | cmd/squadron-action-runner/runner.go:187-263 | executes exactly the permitted request and posts exactly one result, with its reason |
| ActionRunner.Runner.Tick | cmd/squadron-action-runner/runner.go:155-168 | one poll updates memory and effects as specified |
| ActionRunner.Runner.Run | cmd/squadron-action-runner/runner.go:102-129 | the same over every history of polls |
| ActionRunner.AtMostOnce | cmd/squadron-action-runner/runner.go:42-47 | over every history with duplicates and failures, an id is executed at most once and posted exactly once if ever delivered |
| ActionRunner.ExecutionsAreReported | cmd/squadron-action-runner/runner.go:249-262 | an execution is followed directly by the post of its result under its id and phase |
| ActionRunner.PostsTellTheTruth | cmd/squadron-action-runner/runner.go:187-263 | over every history each post belongs to the first delivery of its id: one that was not denied comes right after the execution with the executor's own answer, or failure when there was none; every other one is denied for the true reason |
| ActionRunner.ExecutedWasPermitted | cmd/squadron-action-runner/runner.go:210-247 | everything executed was verified and locally allowed; a dry-run-only node with the two known phases only dry-runs |
| ActionRunner.DryRunOnlyHoldsExactly | cmd/squadron-action-runner/runner.go:224-235 | the dry-run-only promise holds for a request if and only if its phase is one of the two constants |
| ActionRunner.ExecutedWasDelivered | cmd/squadron-action-runner/runner.go:155-168 | nothing is executed in any history but what some poll delivered |
| ActionRunner.ExecutedWasSignedRecently | cmd/squadron-action-runner/runner.go:187-263 | when no delivered request is a forgery, everything executed was signed in that phase, and no later than five minutes after its issue when signed with zero times |
| ActionRunner.ExecutesExactlyTheSigned | cmd/squadron-action-runner/runner.go:187-263 | under a scheme whose own signatures are valid, among own requests and invalidly signed ones exactly the signed, unexpired and locally permitted are executed |
| Capabilities.ActionAllowed | cmd/squadron-action-runner/runner.go:269-286 | some declared capability of a registered type matches |
| Capabilities.AllowsAction | internal/actions/registry.go:110-131 | some capability matches with no reasoned rejection of its type before it; on refusal the reason is that of the first such rejection, or that the type is unknown or undeclared |
| Capabilities.ControlImpliesRunner | internal/actions/registry.go:110-131 | whatever the control plane permits the node permits |
| Capabilities.AgreeOnOneDeclaration | internal/actions/registry.go:115-129 | the two checks agree for every matcher when a type has one declaration |
| Capabilities.DisagreeOtherwise | internal/actions/registry.go:123-128 | with two different declarations some matcher makes them differ |
| Executor.ExecuteRequest | cmd/squadron-action-runner/executor.go:70-376 | a dry run issues exactly the inspection of its type and reports the command line; execution runs that command line and reports it; what cannot run is refused in both |
| Executor.PlannedIsRan | cmd/squadron-action-runner/executor.go:106-135 | the command reported by the dry run is the one reported by the execution, and the dry run only looked |
| Executor.DockerActsOnInspected | cmd/squadron-action-runner/executor.go:91-156 | the container restarted is the one inspected and the one asked for, with the timeout asked for or ten seconds |
| Executor.KubectlActsOnInspected | cmd/squadron-action-runner/executor.go:228-294 | the workload restarted is the one inspected, in the namespace asked for, of the kind asked for or deployment |
| Executor.SystemctlActsOnInspected | cmd/squadron-action-runner/executor.go:296-376 | the unit acted on is the one inspected and the one asked for, by the strategy asked for or a restart |
| Executor.ShellRunsItsWords | cmd/squadron-action-runner/executor.go:163-220 | a shell command written as words runs as exactly these words, issues nothing in a dry run, and is reported verbatim in both |
| Executor.SucceedsExactly | cmd/squadron-action-runner/executor.go:70-376 | when success is reported: a dry run of what can run, or exit code 0 without an error |
| Executor.ApprovalDeterminesArgv | cmd/squadron-action-runner/executor.go:106-131 | splitting the approved line gives the executed argument vector if and only if every argument is a word |
| GoStrings.FieldsOfJoin | cmd/squadron-action-runner/executor.go:177 | splitting joined arguments into fields gives them back if and only if they are words |
| GoStrings.LexLessIs | internal/audit/chain/chain.go:391-396 | the order of timestamps is the dictionary's: a proper prefix, or a smaller character at the first difference |
| ActionCatalog.SortStrings | internal/actions/registry.go:135-144 | insertion sort in place: ordered, and the same names |
| ActionCatalog.Registry.Register | internal/actions/registry.go:63-80 | refuses incomplete and duplicate types and never replaces one |
| ActionCatalog.Registry.Types | internal/actions/registry.go:94-104 | lists every registered name once, in order, for every order of the map |
| ActionCatalog.OneListing | internal/actions/registry.go:92-93 | such a listing is unique |
| LoadDispatch.Dispatch | cmd/otlpsim/main.go:231-279 | an uncancelled run at the full rate sends exactly a tenth of it per tick, one on the ramp exactly the floor of the closed form of the linear climb; no run sends more than the full rate would; no drift for any rate, ramp and deadline; agents take turns, numbers count from 1, and a cancelled run has sent a prefix |
| LoadDispatch.DeadlineEnds | cmd/otlpsim/main.go:248-250 | ticks from the first one past the deadline on count for nothing |
| LoadDispatch.AgentsStayEven | cmd/otlpsim/main.go:265-270 | no agent is ever more than one job ahead of another |
| LoadDispatch.MixIsExact | cmd/otlpsim/main.go:281-295 | any 100 consecutive sequence numbers hold exactly the mix |
| LoadDispatch.DealtInOrder | cmd/otlpsim/main.go:281-295 | every hundred numbers begin with the metrics and end with the traces |
| LoadDispatch.ParseMix | cmd/otlpsim/main.go:639-668 | returns what the flag denotes, and only non-negative shares that add up to 100 |
| LoadDispatch.MixReadBack | cmd/otlpsim/main.go:637-668 | any written list of segments, in any order, with blanks, repeats and white space, denotes the last share of each signal if and only if they add up to 100 |
| LoadDispatch.AcceptsExactly | cmd/otlpsim/main.go:637-668 | the flag gives a mix if and only if it is such a written list with these shares adding up to 100: missing colons, unknown signals and bad percentages are refused |
| LoadDispatch.AcceptedMixIsDealt | cmd/otlpsim/main.go:285-295 | whatever mix the flag parser accepts is dealt exactly |
| Rollup.Generate | cmd/all-in-one/main.go:2243-2266 | the ticker loop generates, per interval, the windows due at its ticks, and they tile when one tick falls in each minute |
| Rollup.WindowsTile | cmd/all-in-one/main.go:2243-2295 | for every whole-minute zone offset each window starts where the one before ended |
| Rollup.OneWindowPerInterval | cmd/all-in-one/main.go:2254-2264 | how many windows any stretch of minutes generates |
| Rollup.LatestCompleted | cmd/all-in-one/main.go:2268-2287 | each window is the latest one complete at its tick |

## Left out

- HTTP, YAML, PEM, OpAMP, OTLP payloads, provider calls, prompts and start-up wiring: I/O or composition.
- The rollout engine: a large state machine over stores and notifiers of its own.
- Byte strings that are not valid UTF-8: strings are sequences of code points, one `char` each.
- Daylight-saving changes and zone data: a zone has one offset, given per window.
- AuditChain.Verify: the sequence numbers are unbounded, so the 64-bit wrap of `prevSeq+1` is not modelled; detail texts are an enumeration.
- AuditExport.VerifyExport: `sort.SliceStable` is modelled by a stable insertion sort on values, since its algorithm is the library's.
- LoadDispatch.Dispatch: the accumulator is an exact real, so float rounding is not modelled; cancellation is observed only between jobs.
- LeaderElection.RunInv: the elector is a step relation on values rather than a class, because its calls interleave; `run` may return at any time.
- FanOut.RunInv: what a call answers does not depend on the schedule; per-chunk timeouts are part of the answer.
- AskDemo.AskDemoMode: the wording is a parameter without an opening bracket, and lower-casing is a parameter.
- ActionRunner.Runner.HandleOne: the executor's output text and timestamps are not modelled, only its status.
- Executor.ExecuteRequest: captured output and its truncation are not modelled; parameters that do not decode and unknown types are one case.
- ExportCSV.ParseExportCSV: splitting a file into records is the CSV reader's, and JSON exports are left out.
- The key state of the AI service (`SetAPIKey` and its helpers), `Validate`, agent registration and the no-op providers: key bookkeeping and field validation, with no property over runs.

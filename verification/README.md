# Verified model of the platform's protocols and parsers

This project states and proves what the stateful core of the repository promises: how entries
leave a Redis stream, when two CHECK constraints count as the same, what a migration ledger looks
like after any number of crashes, who may use a browser profile and when it may be deleted, how the
device agent limits and classifies its actions, which reviewed handles a plan may carry, and what a
browser receives of an event stream. Code that updates state in place is modelled by classes whose
methods are proved equal to functions on values; the results about whole runs are lemmas about
those functions.

`dafny verify dfyconfig.toml` checks everything.

| Files | Subject |
|---|---|
| `stream_ids`, `task_streams`, `stream_runs`, `fanout_markers` | stream ids, the retention scripts, runs of them, and fan-out markers |
| `group_retirement`, `group_governance` | destroying a consumer group, the retention sweep, and the governance report |
| `check_tokens`, `check_clause`, `check_spellings` | the CHECK-clause tokeniser, the and/or parser, and the ways a clause may be spelled |
| `migration_files`, `migration_ledger` | discovering migrations, the ledger, the runner and the read-only verifier |
| `context_lease`, `profile_cleanup`, `secure_delete` | profile leases, the cleanup state machine, and deletion that follows no link |
| `rate_limiter`, `device_engine`, `resident_loop` | the persisted limiter, one device action, and the loop around it |
| `action_plan`, `friend_mentions` | binding handles into a plan, validating the plan against its source, and what both decide, said of the handles themselves |
| `event_stream`, `event_fields` | the browser's event stream reader, and blocks in any form the format allows |
| `results`, `text` | Option, Result and the string operations the rest relies on |

## Reading the model

- A Redis script is one atomic step. Steps interleave freely with XADD, delivery, claims, XACK,
  group creation, guarded group destruction and guarded consumer removal.
- A database transaction is a sequence of statements, and the clock may advance between a read and
  the write that follows it.
- The device, the state file and the clock of the device agent answer numbered calls through
  arbitrary functions, so every sequence of screens and failures is covered.
- Identity keys of handles (NFKC and case folding), file digests and fresh tokens are parameters.

## Where the code does less than it seems to

- Printing tokens and tokenising again never gives back a list in which a token contains a backslash
  before a quote, nor one whose last token is `;`, and gives back every other list
  (`CheckTokens.JoinedIsReadBackIff`, with `CheckTokens.EscapedQuoteIsLost` as an input).
- The retention sweep, and the terminal ack-delete that a worker runs on a message it gives up, delete
  a fan-out entry without looking at its marker. `FanoutMarkers.SweepLeavesMarkerBehind` is such a run;
  `FanoutMarkers.StepKeepsMarkersIff` says that markers and entries stay in agreement exactly when no
  such delete meets a marked entry that every group confirms.
- `verify_migrations_current` refuses a directory without migrations although `run_migrations`
  returns an empty list for it (`MigrationLedger.WithoutMigrations`).
- The advice to wait for the minimum interval is too long when that interval exceeds an hour,
  because the limiter forgets the action by then (`RateLimiter.IntervalAdviceExactIff`, with
  `RateLimiter.LongIntervalAdviceTooLong` as a run). The hourly advice suffices exactly when fewer
  recent actions than the limit are later than the earliest one (`RateLimiter.HourlyAdviceSufficesIff`),
  which can fail once the limit has been lowered (`RateLimiter.LoweredLimitNeedsLonger`).
- A message line that ends in a carriage return loses it on the event stream
  (`EventStream.MessagesArrive`).
- A tap point is the middle of its node, which on a node one pixel wide or high lies on its left or top
  edge (`DeviceEngine.MiddleIsStrictlyInsideIff`).
- A bound plan can fail the comparison with its source when a constrained action was not bound and
  its source names one person twice (`ActionPlan.BindingPassesComparisonIff`, with
  `ActionPlan.RepeatedPersonFailsComparison` as an input).

## Model

| member | source | states |
|---|---|---|
| StreamIds.DecimalCompareIsNumeric | shared/task_streams.py:36-48 | the textual comparison of digit strings of any length, with leading zeros, is the comparison of the numbers they spell |
| StreamIds.IdGteIsNumericOrder | shared/task_streams.py:50-62 | the id comparison holds exactly when both ids parse and the left is at least the right in numeric (milliseconds, sequence) order |
| StreamIds.RenderRoundTrip | shared/task_streams.py:162-163 | an id written by XADD parses back to itself and holds no bar |
| TaskStreams.RetentionScripts.AllGroupsConfirmed | shared/task_streams.py:64-103 | the loop over the groups answers exactly whether there are 1 to 32 groups, each past the id and none owning it |
| TaskStreams.RetentionScripts.XAckCommand | shared/task_streams.py:109-109 | acknowledging removes one pending entry of one group and reports whether it was pending |
| TaskStreams.RetentionScripts.AckDeleteScript | shared/task_streams.py:106-116 | acknowledges, then deletes exactly when every group confirms; the reply counts what was acknowledged and what left; a malformed id is a script error after the acknowledgement attempt |
| TaskStreams.RetentionScripts.ConfirmedDeleteScript | shared/task_streams.py:120-131 | always replies, with two zeros for a malformed id; confirms exactly when every group does, deletes only what is confirmed, and reports what changed |
| TaskStreams.RetentionScripts.FanoutAckDeleteScript | shared/task_streams.py:133-149 | deletes and removes the marker member only when it was present and every group confirms; an emptied key goes too; the reply counts what was acknowledged and what left |
| TaskStreams.RetentionScripts.SRemCommand | shared/task_streams.py:142-145 | removing the last member removes the key |
| TaskStreams.RetentionScripts.ReenqueueScript | shared/task_streams.py:151-171 | does nothing without the source member, otherwise adds one entry with the given fields, swaps the member and settles the source |
| StreamRuns.EntryLeavesOnlyWhenConfirmed | shared/task_streams.py:64-171 | in every step of every interleaving an entry leaves only when every attached group is past it and none owns it |
| StreamRuns.NothingLeavesWithoutGroups | shared/task_streams.py:68-75 | with no group attached, or more than 32, no step deletes anything |
| StreamRuns.EntriesKeepTheirFields | shared/task_streams.py:104-171 | after any step every entry that is there has the fields it had, or those the step was given to add |
| StreamRuns.AddedEntryIsThere | shared/task_streams.py:158-162 | an add, a successful re-enqueue and a first legacy fan-out leave a new last entry with exactly the given fields |
| StreamRuns.EntryCarriesWhatWasAdded | shared/task_streams.py:104-171 | in every run an entry carries, as long as it is there, the fields of the step that added it |
| StreamRuns.NextKeepsValid | shared/task_streams.py:64-171 | every step keeps: whatever lies between a group's start and its position is pending for it or was acknowledged by it |
| StreamRuns.RetireKeepsValid | scripts/retire_redis_consumer_group.py:60-128 | destroying a group keeps that accounting for the others |
| StreamRuns.RunStaysValid | shared/task_streams.py:64-171 | the accounting holds at every point of every run |
| StreamRuns.RemovedEntryWasAcknowledged | shared/task_streams.py:106-171 | an entry removed in any run was acknowledged by every attached group that started before it |
| StreamRuns.PendingLeavesByAck | shared/task_streams.py:106-171 | in a step that removes an entry, positions and groups stay and ownership of it ends only through that step's acknowledgement |
| StreamRuns.LoggedAcknowledgementWasAnXAck | shared/task_streams.py:109-109 | every acknowledgement the accounting counts was an XACK at an earlier step, with the group attached ever since |
| StreamRuns.GroupLeavesOnlyAfterConfirmingAll | scripts/retire_redis_consumer_group.py:99-127 | a group leaves only when it has confirmed every present entry, and its leaving removes no entry |
| StreamRuns.ConfirmationIsKept | shared/task_streams.py:64-103 | a group's confirmation of an entry survives every later step while groups are fixed |
| StreamRuns.EntryIsNeverReadded | shared/task_streams.py:162-162 | an id not above the last id never appears again |
| StreamRuns.EntrySettledByAllGroupsIsGone | shared/task_streams.py:106-116 | with 1 to 32 groups, once each has been delivered an entry and run ack-delete on it, in any order and with repeats, the entry is gone |
| FanoutMarkers.ReenqueueSwapsOneMember | shared/task_streams.py:151-171 | a successful re-enqueue swaps exactly one marker member for the one new entry and removes no entry but its source |
| FanoutMarkers.TerminalRemovesEntryWithItsKey | shared/task_streams.py:133-149 | the terminal script removes a marked entry together with its marker key, or removes nothing |
| FanoutMarkers.MarkedEntryIsPresent | shared/task_streams.py:133-171 | every marker member names an entry still in the stream and is alone in its key |
| FanoutMarkers.StepKeepsMarkers | core/app/services/recovery_daemon.py:106-125 | every step that spares marked entries, legacy fan-out included, keeps markers and entries in agreement |
| FanoutMarkers.StepKeepsMarkersIff | shared/task_streams.py:106-171 | and only such steps do: any delete that knows no markers and takes a marked entry breaks the agreement |
| FanoutMarkers.ConfirmedDeleteKeepsMarkersIff | scripts/retire_redis_consumer_group.py:586-610 | the sweep's confirmed delete keeps the agreement exactly when its entry is not marked or not confirmed by all groups |
| FanoutMarkers.AckDeleteKeepsMarkersIff | worker/app/task_runner.py:3107-3114 | the same for the terminal ack-delete, with its own acknowledgement counted |
| FanoutMarkers.SweepLeavesMarkerBehind | scripts/retire_redis_consumer_group.py:530-610 | a run through the terminal script, another group's acknowledgement and the sweep that ends with a marker naming an absent entry |
| FanoutMarkers.RunKeepsMarkers | shared/task_streams.py:133-171 | so does every run of such steps |
| FanoutMarkers.RunKeepsMarkersIff | shared/task_streams.py:106-171 | a run keeps the agreement throughout exactly when every step spares marked entries |
| FanoutMarkers.KeyVanishesWithItsEntry | shared/task_streams.py:142-145 | a marker key vanishes exactly with the entry its member names, and only once all groups confirm it; a key that stays is not empty |
| FanoutMarkers.ReenqueueUnmarksItsSource | shared/task_streams.py:163-164 | after a re-enqueue no member names the source |
| FanoutMarkers.UnmarkedStaysUnmarked | shared/task_streams.py:155-157 | an old entry without a marker never gets one again |
| FanoutMarkers.RepeatedReenqueueAddsNothing | shared/task_streams.py:155-157 | a second re-enqueue of the same source id, anywhere later in the run, changes nothing |
| GroupRetirement.RetirementScripts.RetireGroupScript | scripts/retire_redis_consumer_group.py:60-128 | destroys exactly when inventory, pending, lag and every consumer's idle time allow it; gives every other answer exactly for the first of these that fails, with its figure |
| GroupRetirement.GroupGoesIffQuiet | scripts/retire_redis_consumer_group.py:60-128 | with true idle times, a group goes exactly when at most 32 groups (256 under the override) are attached, it owns nothing, has read everything, and each of at most 256 consumers was last seen longer ago than asked; all else stays |
| GroupRetirement.RetiredGroupConfirmedEverything | scripts/retire_redis_consumer_group.py:99-127 | with a true lag figure, a destroyed group had confirmed every present entry |
| GroupRetirement.RetirementKeepsOtherConfirmations | scripts/retire_redis_consumer_group.py:124-127 | destroying one of several groups neither unblocks nor blocks any present entry |
| GroupRetirement.RetirementScripts.RetireConsumerScript | shared/redis_consumer_groups.py:52-81 | the loop removes a consumer exactly when it is listed, owns no entry and was idle long enough; each other answer is given exactly for its reason and changes nothing |
| GroupRetirement.ConsumerGoesIffQuiet | shared/redis_consumer_groups.py:68-78 | with true idle times, a consumer goes exactly when it owns no entry and was last seen at least the minimum time ago; the other groups and all entries stay |
| GroupRetirement.ConsumerRetirementReleasesNothing | shared/redis_consumer_groups.py:68-78 | removing a consumer releases no entry of any group and changes no confirmation, although XGROUP DELCONSUMER drops whatever the consumer owns |
| GroupRetirement.RetirementScripts.SweepEntry | scripts/retire_redis_consumer_group.py:586-630 | one entry is deleted exactly when it is well formed, terminal and confirmed by all groups, and is counted as what it is |
| GroupRetirement.RetirementScripts.SweepConfirmedEntries | scripts/retire_redis_consumer_group.py:530-648 | one page: refuses a bad limit without effect, otherwise leaves exactly the entries it may not delete, with true counts and cursor |
| GroupRetirement.FullPageReachesItsLastId | scripts/retire_redis_consumer_group.py:554-565 | a page holds exactly the entries between its cursor and the next one |
| GroupRetirement.SweepCycleIsExact | scripts/retire_redis_consumer_group.py:530-648 | following the cursors to a short page deletes exactly the terminal, confirmed entries after the first cursor |
| GroupGovernance.CountConsumers | shared/redis_consumer_groups.py:675-687 | consumers are counted active up to the window and stale beyond it; unknown idle times count as neither |
| GroupGovernance.IdleIsCounted | shared/redis_consumer_groups.py:675-687 | the two counts are the numbers of known idle times within the window and beyond it |
| GroupGovernance.UnblockedRowIff | shared/redis_consumer_groups.py:691-698 | a row leaves deletion free exactly when its pending figure is zero and its lag is zero, or unknown on a stream known to be empty |
| GroupGovernance.StaleIff | shared/redis_consumer_groups.py:666-702 | a group is stale exactly when its at most 256 consumers were read and none was seen within the window |
| GroupGovernance.ToleratedIff | shared/redis_consumer_groups.py:698-709 | a blocking row is put up with exactly for an expected group of which a consumer was seen within the window |
| GroupGovernance.NameIsReadIff | shared/redis_consumer_groups.py:586-592 | a name is read exactly when white space around it is all that hides 1 to 128 characters of the allowed kinds |
| GroupGovernance.InspectRow | shared/redis_consumer_groups.py:649-709 | one row extends every tally, the stale consumers included, by exactly what that row adds |
| GroupGovernance.EvaluateGovernance | shared/redis_consumer_groups.py:620-786 | each reported set holds exactly the names whose first row has its property, and the stale consumers are those of first rows; the alerts and the availability flag follow from them |
| GroupGovernance.CleanReportConfirmsEverything | shared/redis_consumer_groups.py:691-703 | if no group of a true inventory is reported as blocking, every entry in the stream is confirmed by all groups, the empty stream with unknown lag included |
| GroupGovernance.PositiveLagMeansUnconfirmed | shared/redis_consumer_groups.py:692-692 | a true positive lag names an entry the group has not confirmed |
| GroupGovernance.PositivePendingMeansUnconfirmed | shared/redis_consumer_groups.py:691-691 | so does a true positive pending count, when pending entries are present |
| GroupGovernance.KnownReportIsExact | shared/redis_consumer_groups.py:691-703 | with known figures, no blocking group is reported exactly when every entry is confirmed by all groups |
| CheckTokens.LiteralEndLoop | core/app/migrations_runner.py:2161-2179 | the literal loop ends after the first quote that is neither doubled nor escaped, or fails |
| CheckTokens.ScanOnce | core/app/migrations_runner.py:2146-2213 | one turn of the scanner emits the token or skips the characters that stand at the index |
| CheckTokens.TokeniseCheckClause | core/app/migrations_runner.py:2140-2214 | the whole loop computes the token list of the prepared text |
| CheckTokens.ScannedTokensAreTokens | core/app/migrations_runner.py:2140-2214 | every token is a lower-case word, a number, a closed literal, an operator or one symbol |
| CheckTokens.TokeniseJoined | core/app/migrations_runner.py:2140-2214 | any list of such tokens, printed with one space between, is read back exactly, literals byte for byte, apart from one final semicolon |
| CheckTokens.EscapedQuoteIsNeverReadBack | core/app/migrations_runner.py:2143-2143 | tokens of which one holds an escaped quote are never read back as printed, because preparing the text takes a backslash away |
| CheckTokens.JoinedIsReadBackIff | core/app/migrations_runner.py:2140-2214 | any tokens come back as printed exactly when none holds an escaped quote and the last is not a semicolon |
| CheckTokens.TokeniseRoundTrip | core/app/migrations_runner.py:2140-2214 | so do the tokens of any text |
| CheckTokens.EscapedQuoteIsLost | core/app/migrations_runner.py:2143-2143 | a literal with an escaped quote, printed, is not even a token list when read again |
| CheckSpellings.TokeniseSpelled | core/app/migrations_runner.py:2140-2214 | however a token list is spelled — words in any case, with or without backquotes, literals with or without an introducer, any white space between tokens or none where two do not run together — it is read |
| CheckSpellings.IntroducerIsSkipped | core/app/migrations_runner.py:2151-2160 | an underscore and a name in front of a quote are skipped wherever no word character stands before them |
| CheckSpellings.UnderscoreInsideIntroducesNothing | core/app/migrations_runner.py:2151-2160 | behind a word character the same text is a word of its own |
| CheckSpellings.AnyWhiteSpaceWillDo | core/app/migrations_runner.py:2148-2150 | any white space keeps any two tokens apart |
| CheckSpellings.LiteralIffUnits | core/app/migrations_runner.py:2161-2179 | a literal is exactly a quoted list of plain characters, doubled quotes and escaped characters |
| CheckSpellings.EscapedQuotesBecomeQuotes | core/app/migrations_runner.py:2143-2143 | preparing a text takes the backslash in front of every quote away and changes nothing else |
| CheckSpellings.OperatorIsOneToken | core/app/migrations_runner.py:2198-2210 | each of the seven operators of two or three characters is one token |
| CheckClause.CheckClauseParser.ParseClause | core/app/migrations_runner.py:2224-2230 | the parser object consumes all tokens and returns the functional parser's node, or its error |
| CheckClause.CheckClauseParser.ParseOr | core/app/migrations_runner.py:2237-2242 | the or-loop agrees with the functional parser in node, position and error |
| CheckClause.CheckClauseParser.ParseAnd | core/app/migrations_runner.py:2244-2249 | so does the and-loop |
| CheckClause.CheckClauseParser.ParsePrimaryHere | core/app/migrations_runner.py:2251-2258 | so does a parenthesised expression or a predicate |
| CheckClause.CheckClauseParser.ParsePredicate | core/app/migrations_runner.py:2260-2276 | so does the predicate loop with its nesting depth |
| CheckClause.ParsePrinted | core/app/migrations_runner.py:2217-2288 | every and/or expression, however grouped, is consumed whole and gives its canonical node |
| CheckClause.ParserAcceptsExactlyExpressions | core/app/migrations_runner.py:2217-2288 | the parser accepts a token list exactly when it prints some expression, and then returns that expression's node |
| CheckClause.NormIsCanonical | core/app/migrations_runner.py:2278-2288 | the node has no connective under its own kind and at least two parts under each |
| CheckClause.NormKeepsMeaning | core/app/migrations_runner.py:2278-2288 | the node has the expression's truth value whichever predicates hold |
| CheckClause.SameNodeIffSameUpToGrouping | core/app/migrations_runner.py:2278-2288 | two expressions give the same node exactly when regrouping and re-association lead from one to the other |
| CheckClause.TextsAgreeIffSameUpToGrouping | core/app/migrations_runner.py:2140-2288 | from text to node: two written constraints agree exactly when they are the same up to grouping |
| CheckSpellings.SpelledTextsAgreeIffSameUpToGrouping | core/app/migrations_runner.py:2140-2288 | and so do two constraints in any spelling |
| MigrationFiles.HasDuplicateVersions | core/app/migrations_runner.py:2333-2340 | finds a duplicate exactly when two files share a version |
| MigrationFiles.SortedIsInOrder | core/app/migrations_runner.py:2326-2326 | sorting leaves no later version before an earlier one |
| MigrationFiles.DiscoverMigrations | core/app/migrations_runner.py:2317-2330 | lists exactly the files with a version, strictly ascending, and fails exactly on duplicates |
| MigrationFiles.VersionIsReadIff | core/app/migrations_runner.py:24-24 | a file name carries a version exactly when it is four digits, an underscore, a non-empty one-line title and the suffix |
| MigrationLedger.MigrationRunner.PrepareTable | core/app/migrations_runner.py:2449-2475 | succeeds exactly when the connection lasts its two or three statements; then table and checksum column exist, and a weak column is reported; the recorded rows never change |
| MigrationLedger.MigrationRunner.CheckRecorded | core/app/migrations_runner.py:2480-2516 | succeeds exactly when every row has a file and no checksum or that file's, and the connection lasts the fills; only missing checksums are filled in, and success means every row matches its file |
| MigrationLedger.MigrationRunner.ApplyPending | core/app/migrations_runner.py:2526-2543 | succeeds exactly when the connection lasts; whatever fails, the rows gained are a prefix of the pending migrations with their checksums; each is run to its end before it is recorded, in order, and at most the next one is run beyond that |
| MigrationLedger.MigrationRunner.RunMigrations | core/app/migrations_runner.py:2426-2577 | returns exactly with the lock, distinct versions, acceptable rows, a connection that lasts and an accepted schema; then it leaves exactly the version-to-checksum map of the files and returns the versions not recorded before, in order; any other run leaves a step on the way there |
| MigrationLedger.AttemptsInsertAPrefix | core/app/migrations_runner.py:2530-2543 | any sequence of interrupted attempts inserts a prefix of what was pending at first |
| MigrationLedger.InterruptedRunsInsertEachOnce | core/app/migrations_runner.py:2530-2543 | once the ledger is complete, each unrecorded version was inserted exactly once, in ascending order |
| MigrationLedger.RecordedWasRun | core/app/migrations_runner.py:2531-2543 | over any interrupted attempts, whatever was recorded had run to its end, and each attempt ran at most one migration beyond what it recorded |
| MigrationLedger.CheckHistory | core/app/migrations_runner.py:2603-2623 | reports no problem exactly when rows and files list the same versions with the same valid checksums, no version twice |
| MigrationLedger.VerifyMigrationsCurrent | core/app/migrations_runner.py:2580-2630 | which of its verdicts the verifier gives, and that it accepts exactly a current history of a non-empty directory with an accepted schema |
| MigrationLedger.VerifierAcceptsExactlyFinishedLedgers | core/app/migrations_runner.py:2580-2630 | the history condition holds exactly of the ledger a finished run leaves |
| MigrationLedger.WithoutMigrations | core/app/migrations_runner.py:2592-2594 | on an empty ledger and no migration files the runner returns an empty list and the verifier refuses |
| ContextLease.LeaseTable.ExtendStatement | worker/app/account_profile_context_lease.py:166-185 | extends exactly a live lease of this platform, token and owner |
| ContextLease.LeaseTable.TakeOverStatement | worker/app/account_profile_context_lease.py:193-214 | replaces exactly an expired lease |
| ContextLease.LeaseTable.AcquireLease | worker/app/account_profile_context_lease.py:114-240 | new lease state and answer for every account and lease state and every pause between its statements, as the next rows describe them |
| ContextLease.AcquireSucceedsIff | worker/app/account_profile_context_lease.py:138-240 | succeeds exactly on a live account whose lease, if any, has run out when read or is the caller's and still lasts when written; the caller then holds it for the TTL under its own or the new token; every refusal has its exact condition and leaves the row alone |
| ContextLease.LeaseComesFree | worker/app/account_profile_context_lease.py:192-240 | in every run, one TTL after the last grant anyone may acquire on a live account |
| ContextLease.LeaseTable.RenewLease | worker/app/account_profile_context_lease.py:243-291 | the same for renewing |
| ContextLease.RenewSucceedsIff | worker/app/account_profile_context_lease.py:262-291 | succeeds exactly on a live account whose lease is the caller's and still lasts, and then lasts for the TTL from the write |
| ContextLease.LeaseTable.ReleaseLease | worker/app/account_profile_context_lease.py:294-339 | removes exactly the caller's own lease and says whether it did |
| ContextLease.ReleaseSucceedsIff | worker/app/account_profile_context_lease.py:312-339 | takes away the caller's own lease, live or not, and nothing else |
| ContextLease.LeaseTable.AssertNoActiveLease | worker/app/account_profile_context_lease.py:342-376 | passes exactly when no lease exists or one of the same platform has expired |
| ContextLease.CheckPassesIff | worker/app/account_profile_context_lease.py:355-376 | passes exactly without a lease or with one of this platform that has run out |
| ContextLease.GrantLastsTtl | worker/app/account_profile_context_lease.py:114-291 | a successful acquire or renew gives its token and owner the lease for the full TTL from its write |
| ContextLease.HeldStep | worker/app/account_profile_context_lease.py:153-191 | while a lease is held no operation by another token or owner succeeds, and only the holder's release ends it |
| ContextLease.StillHeld | worker/app/account_profile_context_lease.py:114-339 | a granted lease is still held at every later point of any run before its TTL unless its holder releases it |
| ContextLease.HolderIsExclusive | worker/app/account_profile_context_lease.py:114-339 | in every run, no acquire, renew or release by any other token or owner succeeds before the TTL unless the holder releases first |
| ContextLease.RunStaysBounded | worker/app/account_profile_context_lease.py:169-171 | no lease ever runs longer than the TTL from now, and it names the account's platform |
| ContextLease.DeletedStep | worker/app/account_profile_context_lease.py:77-103 | on a deleted account no operation grants a lease, and a lease can only disappear |
| ContextLease.DeletedAccountGrantsNothing | worker/app/account_profile_context_lease.py:77-103 | once an account is deleted nothing is acquired or renewed again and a live lease is dead within the TTL |
| ContextLease.PassedCheckKeepsPassing | worker/app/account_profile_context_lease.py:342-376 | on a deleted account a check for active leases that passed keeps passing |
| ProfileCleanup.CleanupStore.SelectCandidate | worker/app/account_profile_cleanup.py:314-342 | picks the first due or stale intent in the query's order, or there is none |
| ProfileCleanup.CleanupStore.ClaimCleanup | worker/app/account_profile_cleanup.py:308-379 | claims exactly that row, with the clock free to advance before the write, and describes the row as written |
| ProfileCleanup.WhenNextTaken | worker/app/account_profile_cleanup.py:308-490 | the exact time from which a row can be had: a new one at once, a claimed one when its claim is older than the stale window, one put back after its delay, a settled one never |
| ProfileCleanup.LongestDueGoesFirst | worker/app/account_profile_cleanup.py:330-334 | due intents go before claimed ones, the longest due first and the lower id among equals |
| ProfileCleanup.HolderLeavesTheRow | worker/app/account_profile_cleanup.py:417-490 | what a settled and a put-back row hold, the first 128 characters of the error included, and that no other row changes |
| ProfileCleanup.CleanupStore.MarkSucceeded | worker/app/account_profile_cleanup.py:417-447 | settles exactly when the claim still holds the row, else changes nothing |
| ProfileCleanup.CleanupStore.ReleaseForRetry | worker/app/account_profile_cleanup.py:450-490 | puts the row back exactly when the claim still holds it |
| ProfileCleanup.RetryDelayGrowsToItsCap | worker/app/account_profile_cleanup.py:290-292 | the delay never falls with more attempts and stays at its cap from the eighth on |
| ProfileCleanup.RetryDelayDoubles | worker/app/account_profile_cleanup.py:290-292 | the delay starts at two seconds and doubles with each attempt until it meets its cap |
| ProfileCleanup.StepKeepsValid | core/app/migrations_runner.py:1859-1876 | every step keeps the lifecycle and attempts constraints, and attempts count the claims up to 2147483647 |
| ProfileCleanup.RunStaysValid | core/app/migrations_runner.py:1859-1876 | so does every run |
| ProfileCleanup.ChangeSupersedesTheClaim | worker/app/account_profile_cleanup.py:343-363 | whatever changes a claimed row, a stale reclaim included, takes its token away |
| ProfileCleanup.TokenStaysSuperseded | worker/app/account_profile_cleanup.py:308-490 | a token once superseded never holds the row again |
| ProfileCleanup.SupersededClaimChangesNothing | worker/app/account_profile_cleanup.py:417-490 | settling or retrying with a superseded claim changes nothing, at any later time |
| ProfileCleanup.SucceededIsAbsorbing | worker/app/account_profile_cleanup.py:417-447 | a succeeded row never changes again, so it is settled at most once |
| ProfileCleanup.DeletionGate | worker/app/account_profile_cleanup.py:493-517 | passes exactly for the fence's own account when it is deleted, of this platform and without credential, with its context closed and no active lease once that took its time; and then no lease is ever live again |
| ProfileCleanup.PassedGateIsFinal | worker/app/account_profile_cleanup.py:510-517 | from a passed check on a deleted account no run reaches a live lease |
| ProfileCleanup.DeletionNeverOverlapsALease | worker/app/account_profile_cleanup.py:493-526 | in any run, with any operations between the gate's two reads, no lease is live or granted from the second read on, the deletion included |
| SecureDelete.FileSystem.EmptyDirectory | worker/app/account_profile_cleanup.py:148-179 | the recursive loop ends on every finite tree and empties exactly the directories at or under the given one |
| SecureDelete.FileSystem.SecurelyDelete | worker/app/account_profile_cleanup.py:182-256 | true exactly when the account directory existed, an error exactly for a link or file at the root, platform or account, and no change in any other case |
| SecureDelete.DeletionIsExact | worker/app/account_profile_cleanup.py:148-256 | the account's name and the names under it go; every other name, file and link stays as it was |
| SecureDelete.LinkedDirectoriesSurvive | worker/app/account_profile_cleanup.py:154-156 | what was reached and is not itself deleted is still reached afterwards, whatever links in the account's tree point to it |
| RateLimiter.PersistentRateLimiter.Check | device_agent/guard.py:192-221 | a malformed file is an error; otherwise the decision is the limiter's rule on the stored times and cooldown |
| RateLimiter.AllowedIff | device_agent/guard.py:192-221 | an action is allowed exactly when no cooldown runs, fewer actions than the limit lie less than 3600 seconds back, and each of these is at least the minimum interval ago |
| RateLimiter.QuietHourAllows | device_agent/guard.py:192-221 | after an hour without actions and past the cooldown an action is always allowed |
| RateLimiter.PersistentRateLimiter.RecordMutation | device_agent/guard.py:223-233 | adds the time, drops those an hour old or more, and keeps the cooldown |
| RateLimiter.PersistentRateLimiter.RecordCooldown | device_agent/guard.py:235-245 | moves the deadline only forward and keeps the times |
| RateLimiter.CooldownLastsItsLength | device_agent/guard.py:235-245 | a cooldown denies for the blocked length or for the unknown length, as it was recorded |
| RateLimiter.SortedEnds | device_agent/guard.py:201-205 | the ends of the sorted list are the earliest and the latest recent action |
| RateLimiter.PrunedDecidesAsFullHistory | device_agent/guard.py:223-233 | in every run the pruned list decides, at every later time, as the whole history would |
| RateLimiter.RunStaysValid | device_agent/guard.py:192-245 | every run keeps the history ascending and spaced and the pruned list in agreement with it |
| RateLimiter.HourlyLimitHolds | device_agent/guard.py:206-211 | in every run every half-open window of an hour holds at most the hourly limit of recorded actions |
| RateLimiter.ActionsAreApart | device_agent/guard.py:212-220 | consecutive recorded actions are at least the smaller of the minimum interval and an hour apart |
| RateLimiter.CooldownHolds | device_agent/guard.py:235-245 | no action starts before a cooldown recorded earlier in the run has passed |
| RateLimiter.CooldownAdviceIsExact | device_agent/guard.py:196-200 | the cooldown reason is given until the advised time and not after |
| RateLimiter.HourlyAdviceIsExact | device_agent/guard.py:206-211 | in every reachable state the hourly reason is given until the advised time and not after |
| RateLimiter.HourlyAdviceSufficesIff | device_agent/guard.py:206-211 | in any state the hourly reason lasts until the advised time, and is gone then exactly when fewer recent actions than the limit are later than the earliest |
| RateLimiter.IntervalReasonLasts | device_agent/guard.py:212-220 | the interval reason lasts until the interval or an hour after the last action, so its advice suffices |
| RateLimiter.IntervalAdviceExactIff | device_agent/guard.py:212-220 | that advice is exact exactly when the interval is at most an hour |
| RateLimiter.LongIntervalAdviceTooLong | device_agent/guard.py:212-220 | for every interval above an hour and limit above one, a run of one action after which another is allowed before the time advised |
| RateLimiter.LoweredLimitNeedsLonger | device_agent/guard.py:206-211 | a run under a limit of two after which a limit of one still denies at the time it had advised |
| DeviceEngine.TargetShown | device_agent/engine.py:222-241 | the verdicts refuse a screen exactly when it does not show the bound target and the author to follow |
| DeviceEngine.FoundPointHits | device_agent/ui.py:38-104 | a point to tap is found exactly when one enabled, clickable node with non-empty bounds is the only match, and it lies in the middle of that node |
| DeviceEngine.MiddleIsStrictlyInsideIff | device_agent/ui.py:45-48 | the middle is off every edge exactly when the node is at least two pixels wide and high; on a narrower one it lies on the left or top edge |
| DeviceEngine.ShownIff | device_agent/engine.py:198-241 | a screen shows the action done, or not done, exactly when it is of the app, holds no risk text, shows each marker of the target once, and has a done node or none |
| DeviceEngine.TypedShowsTheComment | device_agent/engine.py:515-518 | where the read-back asks for the comment itself, a node shows exactly the comment to be sent |
| DeviceEngine.MutatesIff | device_agent/engine.py:389-535 | the exact condition for a mutating tap: a first screen that does not show the action done and has the trigger, in time; for a comment also typed and read back with the submit button, in time again |
| DeviceEngine.DeviceActionEngine.Inspect | device_agent/engine.py:405-467 | a risk-free screen leads to a tap exactly when it shows the target, not the done state, and one trigger, in time; already done exactly when it shows the done state |
| DeviceEngine.DeviceActionEngine.Prepare | device_agent/engine.py:392-467 | reports the action done exactly when a risk-free screen of the right target shows it; hands over a tap exactly when such a screen does not and its one trigger can be tapped in time; leaves a blocked cooldown exactly when a risk text was read and the write worked, and no other |
| DeviceEngine.DeviceActionEngine.ReadBack | device_agent/engine.py:488-528 | a risk-free screen leads to the submit button exactly when it shows the target and the typed text and the button can be tapped in time |
| DeviceEngine.DeviceActionEngine.EnterComment | device_agent/engine.py:469-528 | hands over the submit button exactly when the text was typed, read back on a risk-free screen of the target, and the button can be tapped in time; makes no mutating tap; leaves a blocked cooldown exactly when a risk text was read and the write worked, and no other |
| DeviceEngine.DeviceActionEngine.Approach | device_agent/engine.py:389-528 | leads to the mutating tap exactly when all of that holds, leaves exactly those cooldowns, taps at most the comment's field and types its text, and hands over a point on the trigger or, for a comment, on the submit button read after typing |
| DeviceEngine.DeviceActionEngine.JudgeEffect | device_agent/engine.py:539-596 | success exactly when the effect shows on a risk-free, verified screen, and then no cooldown; otherwise the outcome is unknown, with a blocked cooldown exactly for a risk text and a shorter one for the rest, and an error exactly when that cannot be written |
| DeviceEngine.DeviceActionEngine.Confirm | device_agent/engine.py:535-596 | success exactly when the mutation was recorded and the next screen confirms it; the record, the screen read and the cooldown are fixed by the world |
| DeviceEngine.DeviceActionEngine.Mutate | device_agent/engine.py:529-596 | a tap that fails leaves everything as it was; one that returns is recorded, judged and answered by a cooldown as the world fixes it |
| DeviceEngine.DeviceActionEngine.Attempt | device_agent/engine.py:389-596 | the mutating tap, its record and the confirming screen happen exactly when the world allows them, at calls it fixes; the mutating tap is the last input and hits its node, and the inputs before it are only those of typing; every result is classified, and no success or finished action is lost in a failure |
| DeviceEngine.DeviceActionEngine.Admit | device_agent/engine.py:371-389 | lets a request through exactly when the limiter can be read and allows it, and passes its advice on otherwise |
| DeviceEngine.RefusalPassesTheAdviceOn | device_agent/engine.py:379-389 | a refused request is told to wait as long as the limiter advises |
| DeviceEngine.DeviceActionEngine.ExecuteLocked | device_agent/engine.py:365-627 | for every sequence of screens and failures, attempts exactly what the limiter allows; halts exactly outside success and already done, outcome unknown exactly when the mutating tap returned unconfirmed; the cooldown left, its length included, is the one the world fixes |
| DeviceEngine.DeviceActionEngine.Execute | device_agent/engine.py:341-363 | the same, inputs included, with the account lock, whose failure stops the request before anything else |
| DeviceEngine.InputsOfAMutation | device_agent/engine.py:469-533 | those inputs spelled out: one tap in the middle of the trigger, or a tap on the field, the comment's text and a tap in the middle of the submit button |
| DeviceEngine.BlockedCooldownIffRisk | device_agent/engine.py:396-547 | that cooldown is the blocked one exactly when a risk text was read before the action, while typing or after the mutation, and the write after it worked |
| DeviceEngine.UnconfirmedLeavesCooldown | device_agent/engine.py:539-616 | after a mutation that is not confirmed some cooldown is left, unless the last write fails too |
| DeviceEngine.AttemptIsLimiterRun | device_agent/engine.py:365-389 | with a steady clock an attempt writes the state file as a run of the limiter, checking before it records, and adds to its history exactly the time the mutation was recorded |
| ResidentLoop.ResidentDeviceLoop.Serve | device_agent/loop.py:151-159 | between its two heartbeats one command is executed in full and added, with its log and result, to those served, from the file and call the last one left |
| ResidentLoop.ResidentDeviceLoop.RunLoop | device_agent/loop.py:119-169 | executes exactly the commands of its turns in order, each from where the one before it ended; ends only when stopped, out of iterations, unhealthy or halted and says which; every result but the last lets it go on, and mutating taps exceed recorded ones by at most one |
| ResidentLoop.TapsAreRecordedButOne | device_agent/loop.py:154-164 | of the commands served, all mutating taps were recorded except at most the last, whose result then halts with unknown outcome |
| ResidentLoop.LoopIsLimiterRun | device_agent/loop.py:133-164 | with a steady clock the logs of the commands served are one run of the limiter, and its history grows by exactly the times at which they recorded their mutations |
| ResidentLoop.LoopKeepsHourlyLimit | device_agent/loop.py:133-164 | of the commands a loop serves, those whose mutation was recorded within any one hour keep to the hourly limit, together with the earlier actions the state file stood for |
| ResidentLoop.FirstLoopKeepsHourlyLimit | device_agent/loop.py:133-164 | so do those of a loop that starts without a state file |
| ActionPlan.ValidateConstraints | core/app/action_plan.py:481-500 | accepts exactly absent constraints or known actions with a known mode and a count of 1 to 32 |
| ActionPlan.NoDuplicatesIsDistinct | core/app/action_plan.py:518-520 | as many keys as different keys means no two handles share an identity |
| ActionPlan.BindFriendMentions | core/app/action_plan.py:577-620 | fails exactly on malformed constraints; otherwise replaces the mentions of exactly those actions whose payload fits |
| FriendMentions.BindsIffMet | core/app/action_plan.py:577-620 | a reviewed text takes the place of the source's mentions exactly when it meets its stored entry in that sense |
| ActionPlan.FriendMentionsSatisfied | core/app/action_plan.py:623-683 | true exactly when constraints are valid and not empty and every constrained action's bound mentions are its payload's and fit its source |
| FriendMentions.SatisfiedIffEveryEntryIs | core/app/action_plan.py:481-683 | on the stored entries: satisfied exactly when some are asked for, each is well formed, and each text mentions, bound as reviewed, different people, everyone the source names, and beside those and the followed as many others as asked — that number under "exact", at least it under "minimum" |
| ActionPlan.SatisfiedAfterBindingIff | core/app/action_plan.py:455-683 | after binding, friend mentions are satisfied exactly when every constrained payload names different people, covers the source and leaves the required number of friends |
| ActionPlan.FriendBindingIsIdempotent | core/app/action_plan.py:577-620 | binding the friends twice is binding them once |
| ActionPlan.CompareWithSource | core/app/action_plan.py:874-906 | the validator's comparison accepts exactly kept tags, covered follow targets and mentions, and no repeated person where friends are asked for |
| ActionPlan.BindingPassesComparisonIff | core/app/action_plan.py:874-906 | a bound plan passes the comparison exactly when each constrained action was bound or its source repeats no person; a satisfied binding always passes |
| ActionPlan.RepeatedPersonFailsComparison | core/app/action_plan.py:874-906 | a source that names one person twice, with a payload that repeats it, is bound into a plan that fails the comparison |
| ActionPlan.FollowAgreesIff | core/app/action_plan.py:455-478 | the follow check passes after binding exactly when the one source target, or with none any handle of the right form, was reviewed |
| ActionPlan.ValidatePlan | core/app/action_plan.py:845-940 | the validator's loop and early exits accept exactly the plans its conditions describe |
| FriendMentions.PlanPassesIff | core/app/action_plan.py:874-940 | on the handles: any plan passes exactly when it follows everyone the source does, keeps its tags and people, is repeated by the reviewed texts, follows the reviewed handle alone where required, and satisfies each stored entry |
| ActionPlan.BoundPlanPassesIff | core/app/action_plan.py:874-940 | the binders and the separately written validator agree: a bound plan passes exactly when its reviewed payloads match the source |
| EventStream.ParseBlock | frontend/src/api.js:354-365 | the message of a block is its data fields joined by newlines, and there is none without a data field |
| EventStream.EventStreamReader.Feed | frontend/src/api.js:427-443 | one chunk delivers every block it completes, keeps the rest, and fails exactly at a block or rest over the limit |
| EventStream.FirstSeparatorStays | frontend/src/api.js:430-439 | text that arrives later neither moves nor lengthens a separator already complete |
| EventStream.FeedingReads | frontend/src/api.js:419-443 | however a text is cut, what is delivered is a beginning of its messages, and all of them when no limit is exceeded |
| EventStream.CuttingDoesNotMatter | frontend/src/api.js:419-443 | two cuttings of one text that exceed no limit give the same messages and the same rest |
| EventStream.MessagesArrive | frontend/src/api.js:354-443 | messages written as data fields arrive in order, and unchanged exactly when no line ends in a carriage return |
| EventFields.BlocksArrive | frontend/src/api.js:354-443 | blocks with any mixture of fields, comments and line ends arrive, however they are cut, as the values of their data fields joined by newlines, and blocks without one as nothing |
| EventFields.ShortStreamIsNeverRefused | frontend/src/api.js:431-441 | a stream of at most 262144 characters never meets the limit |
| EventFields.OverlongTextIsRefused | frontend/src/api.js:431-441 | a text with no separator within 262144 characters and more than that is refused with nothing delivered |
| EventStream.ReturnFreeMessagesArrive | frontend/src/api.js:354-443 | messages without carriage returns arrive unchanged |

## Left out

- Redis, MySQL, ADB, HTTP and browser clients: their effects are steps or arbitrary answers.
- Stream replies: group records always carry a name and a position, the stream key exists, ids carry a sequence part and have no 64-bit bound.
- Deleting an entry that carries plaintext credentials outside the scripts, on the legacy stream (core/app/services/recovery_daemon.py:148-153) and on any platform lane (worker/app/task_runner.py:3101), and the acknowledgement of the legacy source stream in the fan-out script.
- FanoutMarkers.RunKeepsMarkers: holds for runs that spare marked entries; the callers do not arrange this, and FanoutMarkers.RunKeepsMarkersIff is the exact condition.
- GroupGovernance.EvaluateGovernance: does not model the detail rows and warning codes, which repeat the sets and counts.
- Approval and intent files of group retirement, audit records and the account of terminal entries in the database: the set of terminal entries is a parameter of the sweep.
- CheckTokens.TokeniseCheckClause: characters are classified as ASCII; letters, digits and spaces beyond ASCII are not modelled.
- Rendered forms of CHECK nodes and of other SQL expressions: atoms are joined without separators, so results are about nodes and token lists.
- MigrationLedger.MigrationRunner.RunMigrations: the statements of one migration count as one that succeeds or fails; what they do to other tables, the advisory locks and the live-schema verification (a yes or no) are not modelled.
- ContextLease.LeaseTable.AcquireLease: identities and tokens arrive normalised, and a row that is rewritten counts as affected.
- ProfileCleanup.StepKeepsValid: claim tokens are fresh, as random identifiers are.
- ProfileCleanup.DeletionGate: the process file lock around the deletion is not modelled; a lock file may be unlinked by its holder, so exclusion per path is not claimed.
- SecureDelete.FileSystem.SecurelyDelete: nobody else changes the file system meanwhile, so the checks for a changed inode or a vanished name never fire; inodes without a name stay in the table.
- RateLimiter.PersistentRateLimiter.Check: times are real numbers, so rounding, infinities and not-a-number are not modelled; neither is the file's encoding.
- DeviceEngine.DeviceActionEngine.ExecuteLocked: a tap whose call fails counts as not made; a failure to release the account lock and an operating system error while looking for the state file are not modelled; parsing of the screen is part of the world's answer.
- ResidentLoop.ResidentDeviceLoop.RunLoop: a failing heartbeat write is not modelled; a loop that never ends is covered through the runs its iteration limit cuts from it.
- The read-only snapshot report of the device engine, its HTTP service and command line.
- ActionPlan.ValidatePlan: starts where payloads, requirements and constraints have their types; hashes, attestations, platform-specific checks, media and capabilities are not modelled.
- EventStream.EventStreamReader.Feed: chunks are decoded text; decoding, the byte limit of a chunk, reconnection and the end of the stream are not modelled.
- Stream name tables, credential posture checks, schema constants, pages and scripts for deployment: finite data or plumbing.

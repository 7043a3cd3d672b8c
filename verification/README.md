# Linux control plane: a verified model

A Dafny model of the stateful and text-rewriting parts of the control plane, with
proofs of what they promise. `dafny verify dfyconfig.toml` checks the whole project.

What is modelled, by module:

- **AgentCost, AgentStatus, AgentBudget, AgentAggregator** (`internal/api/agent_cost.go`,
  `agent_status.go`, `agent_budget.go`): pricing and parsing agent transcripts, the cache
  keyed by path and mtime, the status store, the roll-up and the spend alerts. The main
  results: grouping by model and by day never changes the bill; in every run the cache
  agrees with a fresh parse; the figures held against the caps are the price of exactly
  the lines they stand for; over every run of passes each breach alerts once.
- **DocStructure** (`scripts/check-docs-structure.py`): the stack machine over tag events
  computes a definition over the document tree, and its verdict is characterised exactly.
- **MessageStash, Unread, Push** (`cmd/wad`): the FIFO message stash with its durable
  second level, the unread batches, and the delivery that re-reads its secret.
- **AgentHooks, SecretsEnv, BrowserEnv, Prompts, UploadName**: merges and round trips over
  settings trees and text, each with its exact law (last writer wins, inverse, idempotence).
- **Paths, FileServing** (`internal/androidupdate/manifest.go`,
  `internal/api/handlers_fdroid.go`): lexical path cleaning keeps where a path leads, and
  no served name leaves its directory.
- **BackupCodes, LoginMfa, LoginRuns, DataSaver** (`internal/auth/backup_codes.go`,
  `internal/api/handlers_auth.go`, `mfa.go`, `datasaver_watcher.go`): the second-factor
  decision over runs of overlapping requests, and the watchdog over runs of ticks.
- **Text, Seqs, MapSum, Options**: Go's string operations, windows over sequences, sums over
  maps, and the usual optional values.

Classes follow the source's objects: their methods are proved against functions on a value
that stands for the object's state, and the theorems about runs are about those functions.
Where a law does not hold for every input, the lemma is an if-and-only-if and a second lemma
gives a failing input.

Where the code and its comments differ, the model follows the code:

- `agent_cost.go` says a cache read is a tenth of the input rate; for Opus 5.5 and the default it is a twentieth (`PriceForModel`).
- `agent_hook.go` says existing settings are preserved; a `hooks` value that is not an object is replaced, and a settings file that says `null` panics (`MergeAgentHooks`).
- `push.go` says a refused event is retried once with the secret from disk; that happens only if the secret in memory is not already that one (`RefusalRecoversIff`, `SecondStaleEventIsLost`).
- `backup_codes.go` says that of two concurrent calls with one code only one marks it used; load and save are locked apart, and every request has a store of its own (`OneShotIff`, `OverlapOpensTwice`).
- `handlers_auth.go` says a user known to have a second factor is not let in on a failed lookup; an enrolment that the provider verified but whose codes were not saved is not known (`SettledIff`, `UnsavedEnrolmentIsForgotten`).
- `prompts.go` says an edit is persisted atomically; two overlapping edits may save in the wrong order (`RestartKeepsSavedEdits`, `OverlapLosesAnEdit`).
- `datasaver_watcher.go` says the worst case is no compression; a switch that is saved while the service does not restart leaves the device on the dead proxy, unwatched (`SavedOnlyStaysRouted`).
- `mediastash.go` says a download survives restarts; two ids that sanitise alike share one file (`ClashingIdsLoseAMessage`).

## Model

| member | source | states |
|---|---|---|
| AgentCost.PriceForModel | internal/api/agent_cost.go:58-87 | for every model name output bills at 5 times, cache writes at 1.25 and 2 times the input rate, and reads at a tenth of it unless Opus 5.5 rates apply |
| AgentCost.FirstMatchWins | internal/api/agent_cost.go:79-87 | the first row whose needle occurs decides, otherwise the default |
| AgentCost.FamilyRates | internal/api/agent_cost.go:58-87 | the input rate of every family, for every name in any case |
| AgentCost.MarginalRates | internal/api/agent_cost.go:96-111 | what one more token of each kind adds to any coherent bill: each counter is charged at its own rate |
| AgentCost.MalformedSplit | internal/api/agent_cost.go:89-105 | a split that makes no sense is billed as the nearest one that does |
| AgentCost.MeasuredBills | internal/api/agent_cost.go:45-57 | the two invoices quoted in the source come out exactly, so "opus-5-5" is not billed as "opus-5" |
| AgentCost.CostOfSum | internal/api/agent_cost.go:96-111 | the bill of a sum differs from the sum of the bills by exactly what the clamp moved between the two write rates |
| AgentCost.Usage.Cache1h | internal/api/agent_cost.go:132-144 | the 1h slice of a line lies between zero and the reported total |
| AgentCost.ParseTranscript | internal/api/agent_cost.go:163-249 | the parser's loops and maps compute totals, cost and day costs of the counted lines, or an error exactly when the file cannot be opened or read to its end |
| AgentCost.LineAddsItsTokens | internal/api/agent_cost.go:184-210 | a line with a usage block moves each total by its own field, the 1h slice cut to the reported total |
| AgentCost.LineAddsItsPrice | internal/api/agent_cost.go:184-247 | and moves the cost, and the day its timestamp starts with and no other, by those fields at their own rates |
| AgentCost.OtherLinesAreSkipped | internal/api/agent_cost.go:178-193 | every other line changes nothing |
| AgentCost.BillOf | internal/api/agent_cost.go:236-239 | summing over the models in any order gives the bill |
| AgentCost.BillDays | internal/api/agent_cost.go:240-247 | each day is billed from its own per-model totals |
| AgentCost.NonNegativeIsCoherent | internal/api/agent_cost.go:129-144 | non-negative counters make every line's split coherent |
| AgentCost.GroupingKeepsTheBill | internal/api/agent_cost.go:196-239 | pricing per-model totals equals pricing line by line |
| AgentCost.GroupingGap | internal/api/agent_cost.go:96-111 | with any counters, a whole transcript's bill exceeds its lines' bills by exactly the sum, over the models, of what the clamp on the total bills at the 1h rate and the clamps on the lines do not |
| AgentCost.GroupingExact | internal/api/agent_cost.go:89-105 | so the two agree if and only if that sum is zero; for one model, if and only if the clamps bill equally many 1h tokens |
| AgentCost.NegativeCounterMovesTheBill | internal/api/agent_cost.go:94-104 | any negative write counter after a 1h write is a case where they differ |
| AgentCost.DayBuckets | internal/api/agent_cost.go:211-231 | there is a bucket for exactly the days that occur, holding exactly that day's tokens |
| AgentCost.DayCostsItsLines | internal/api/agent_cost.go:240-247 | a day's bucket costs what its own lines cost |
| AgentCost.DaysConserveTheBill | internal/api/agent_cost.go:211-248 | day buckets plus undated lines make up the whole cost |
| AgentCost.TotalsSumOverModels | internal/api/agent_cost.go:196-210 | every counter of the session total is the sum of that counter over the models |
| AgentCost.ParsedConserves | internal/api/agent_cost.go:158-249 | cost, day costs and undated lines of a transcript against its own lines |
| AgentStatus.WithState | internal/api/agent_status.go:107-124 | a state change keeps the figures |
| AgentStatus.WithTokens | internal/api/agent_status.go:126-152 | new figures keep the state, and the timestamp moves only when the totals moved |
| AgentStatus.StatusStore.SetState | internal/api/agent_status.go:110-124 | only the named session changes |
| AgentStatus.StatusStore.SetTokens | internal/api/agent_status.go:130-152 | only the named session changes |
| AgentStatus.StatusStore.Prune | internal/api/agent_status.go:156-173 | exactly the unknown and the stale sessions go |
| AgentBudget.KeysTellBreachesApart | internal/api/agent_budget.go:118-134 | alert keys differ by kind, period and session, even for names with colons |
| AgentBudget.DueExactly | internal/api/agent_budget.go:118-136 | which key is due, cap by cap and total by total, and that no other key is |
| AgentBudget.BudgetAlerts.FireOnce | internal/api/agent_budget.go:100-116 | a key is dispatched unless it was before |
| AgentBudget.BudgetAlerts.FireSessions | internal/api/agent_budget.go:128-136 | one alert per session over the cap |
| AgentBudget.BudgetAlerts.CheckBudgets | internal/api/agent_budget.go:85-137 | exactly the due keys that had not fired are dispatched |
| AgentBudget.NeverTwice | internal/api/agent_budget.go:80-116 | in every run no key is dispatched twice |
| AgentBudget.DispatchedIffBreached | internal/api/agent_budget.go:85-137 | a key has been dispatched if and only if an earlier check found its cap exceeded |
| AgentAggregator.SessionIdOfPath | internal/api/agent_cost.go:174 | a transcript is known by its file name without the extension |
| AgentAggregator.ShareOf | internal/api/agent_cost.go:362-369 | a session's part of the day and month totals |
| AgentAggregator.RollUp | internal/api/agent_cost.go:356-370 | day, month and per-session totals of the cache |
| AgentAggregator.Aggregator.RefreshOne | internal/api/agent_cost.go:326-344 | one session: skip, cache hit or fresh parse |
| AgentAggregator.Aggregator.RefreshAll | internal/api/agent_cost.go:322-345 | all mapped sessions, in any order |
| AgentAggregator.Aggregator.DropUnmapped | internal/api/agent_cost.go:346-351 | unmapped sessions leave the cache |
| AgentAggregator.Aggregator.Pass | internal/api/agent_cost.go:317-372 | one pass over cache, status store and alerts |
| AgentAggregator.CacheStaysCoherent | internal/api/agent_cost.go:317-351 | in every run each cache entry is what a fresh parse would give, if equal path and mtime mean equal contents |
| AgentAggregator.PassPublishesFreshTotals | internal/api/agent_cost.go:324-352 | after every pass a mapped session with a readable newest transcript shows a fresh parse, and is missing exactly if its totals were unchanged and its entry stale |
| AgentAggregator.KeptDaysCostTheirLines | internal/api/agent_cost.go:360-370 | for any choice of days the buckets cost what the lines of those days cost |
| AgentAggregator.CapsAreHeldAgainstTheLines | internal/api/agent_cost.go:354-371 | the daily, monthly and per-session figures are the price of exactly today's, this month's and the session's counted lines |
| AgentAggregator.AlertsFollowTheLines | internal/api/agent_cost.go:317-371 | over every run of passes the alert of a day, a month or a session has been dispatched if and only if at an earlier pass of that day or month the lines of that day, month or session, priced one by one, cost more than the positive cap; and never twice |
| AgentAggregator.UnchangedIsNotParsed | internal/api/agent_cost.go:336-339 | a session whose newest transcript has not changed is published from the cache, whatever a parse would find |
| AgentAggregator.UnreadableKeepsTheFigures | internal/api/agent_cost.go:327-343 | a session whose transcript cannot be found or read keeps its figures and only ages |
| DocStructure.WordsExact | scripts/check-docs-structure.py:41-50 | the class list is exactly the words that stand between white space |
| DocStructure.StripExactly | scripts/check-docs-structure.py:55-57 | stripping cuts white space at both ends and nothing else, and leaves nothing exactly of blank text |
| DocStructure.VoidIsTheStandard | scripts/check-docs-structure.py:22-23 | the elements passed over are the standard's void elements and the obsolete param |
| DocStructure.Innermost | scripts/check-docs-structure.py:47-48 | an end tag matches the innermost open element of its name |
| DocStructure.Checker.HandleStart | scripts/check-docs-structure.py:34-42 | push, and report a loose tag |
| DocStructure.Checker.HandleEnd | scripts/check-docs-structure.py:44-53 | close everything from the matching element on |
| DocStructure.Checker.RecordPages | scripts/check-docs-structure.py:49-51 | every page among the closed elements is recorded |
| DocStructure.Checker.HandleData | scripts/check-docs-structure.py:55-57 | report loose text |
| DocStructure.Checker.Feed | scripts/check-docs-structure.py:60-63 | the handlers over a whole file |
| DocStructure.Check | scripts/check-docs-structure.py:60-89 | the verdict |
| DocStructure.WellNested | scripts/check-docs-structure.py:34-57 | a well-nested document leaves the stack as it was, reports exactly the loose content in document order and records exactly the pages in closing order |
| DocStructure.NoLeaksIff | scripts/check-docs-structure.py:40-42 | nothing is reported if and only if every child of every container, at any depth, is allowed there |
| DocStructure.PassesIff | scripts/check-docs-structure.py:60-89 | a well-nested document passes if and only if it has a div with the class page, and every child of every main-content element has that class, is a void element or is text made of white space |
| DocStructure.PagesAreConserved | scripts/check-docs-structure.py:44-53 | for any events, every page that started is still open or was recorded once |
| DocStructure.ClosedInOrder | scripts/check-docs-structure.py:49-51 | pages that close together are recorded outermost first, each as its own element says |
| DocStructure.StrayEndIsIgnored | scripts/check-docs-structure.py:44-53 | an end tag nothing waits for changes nothing |
| DocStructure.UnclosedIsReported | scripts/check-docs-structure.py:72-74 | an unclosed block element fails the check |
| DocStructure.SurplusClose | scripts/check-docs-structure.py:4-10 | after a surplus end tag in a page, what follows is read as content of the container |
| DocStructure.SurplusCloseIsReported | scripts/check-docs-structure.py:4-10 | so the check fails whenever anything not allowed there follows, whatever comes before and after |
| MessageStash.ViewOnceKeepsMedia | cmd/wad/parity.go:20-34 | a view-once wrapper, of any kind, does not hide the media |
| MessageStash.HasMediaIff | cmd/wad/mediastash.go:69-77 | what counts as media: the first wrapper that holds a message is looked into, and no deeper |
| MessageStash.FileId | cmd/wad/mediastash.go:43-58 | file names have at most 128 safe characters |
| MessageStash.SafeIdsKeepTheirName | cmd/wad/mediastash.go:43-58 | exactly the safe ids of up to 128 characters are their own file name, so those never clash |
| MessageStash.Session.StashMsg | cmd/wad/session.go:646-675 | the whole new state of memory and disk, the eviction loop included; text never reaches the disk |
| MessageStash.StashInSteps | cmd/wad/session.go:662-674 | the memory step and the file step of one insert are that, when nothing comes between |
| MessageStash.Session.GetStashed | cmd/wad/session.go:682-690 | memory first, then disk |
| MessageStash.SortedNewestFirst | cmd/wad/mediastash.go:164-178 | the listing, each file once, newest first |
| MessageStash.Session.PruneMediaStash | cmd/wad/mediastash.go:151-182 | at most 8000 files stay, none older than one that goes, and none goes below the cap |
| MessageStash.KeepsTheNewest | cmd/wad/mediastash.go:178-181 | deleting the tail of the sorted list does that |
| MessageStash.MemoryIsTheWindow | cmd/wad/session.go:648-658 | in every run the memory is exactly the last 3000 accepted inserts, without repetition |
| MessageStash.MemoryHoldsTheLast | cmd/wad/session.go:652-658 | and holds for each id what was last accepted under it |
| MessageStash.DurableIsFound | cmd/wad/session.go:682-690 | a media message whose file was the last one written under its id is found after any evictions and restarts until a prune takes it, if no other id shares its file |
| MessageStash.KeptIsDurable | cmd/wad/session.go:662-674 | a file that was written and kept is that one, if no older file of the id was still waiting when the id was accepted |
| MessageStash.SafeRunsAreDurable | cmd/wad/mediastash.go:101-147 | for safe ids written in that order nothing more is needed |
| MessageStash.DurableIffNamesDiffer | cmd/wad/mediastash.go:43-147 | for any set of ids, every run over them finds its durable messages if and only if no two ids share a file name |
| MessageStash.ClashingIdsLoseAMessage | cmd/wad/mediastash.go:104-147 | any two ids with one file name: after a restart the first brings back the second's message |
| MessageStash.ClashingIdsExist | cmd/wad/mediastash.go:43-58 | such ids exist |
| Unread.Session.Record | cmd/wad/session.go:509-516 | one inbound message and the 200 cap |
| Unread.Session.EvictSome | cmd/wad/session.go:518-526 | chats are forgotten until 4000 are left |
| Unread.Session.OnMessage | cmd/wad/session.go:507-528 | the bookkeeping of one message |
| Unread.Session.MarkRead | cmd/wad/parity.go:266-284 | the receipt for the batch, which is emptied |
| Unread.BatchIsTheWindow | cmd/wad/session.go:510-516 | in every run a chat's batch is exactly the last 200 ids since its last mark-read or eviction |
| Unread.BatchEndsWithTheLast | cmd/wad/parity.go:270-283 | a chat with unread messages has a last inbound message, the last of its batch |
| Unread.RememberedIsTheLast | cmd/wad/session.go:509-510 | in every run the message remembered for a chat is the last one received there |
| Unread.ChatsStayBounded | cmd/wad/session.go:517-526 | never more than 5000 chats after a step |
| Unread.MarkReadSendsTheBatch | cmd/wad/parity.go:266-284 | a mark-read acknowledges exactly that batch, once, naming the last sender (the chat itself when that one is empty or does not parse) |
| Push.Reloaded | cmd/wad/main.go:162-181 | memory moves only to a non-empty secret on disk, and keeps its API key |
| Push.Manager.ReloadSecret | cmd/wad/main.go:162-181 | the new entry, and whether it changed |
| Push.Manager.Deliver | cmd/wad/push.go:99-172 | the retry loop, and no other user's entry changes |
| Push.DeliverFrom | cmd/wad/push.go:99-172 | at most six posts; a give-up uses all six; only permanent codes drop |
| Push.MemoryMovesToDisk | cmd/wad/main.go:162-181 | after a delivery the secret in memory is the old one, another delivery's, or a non-empty one found on disk |
| Push.OutageIsRiddenOut | cmd/wad/push.go:103-118 | while the server is down or failing a delivery only waits |
| Push.FirstAnswerDecides | cmd/wad/push.go:99-172 | after any outage the first answer decides, code by code: delivered, dropped, or on with the secret from disk |
| Push.RefusalRecoversIff | cmd/wad/push.go:127-164 | after the first refusal, with the server's secret on disk, the next post is delivered if and only if memory does not hold that secret already |
| Push.RefusalAtTheEnd | cmd/wad/push.go:127-136 | a refusal at the last attempt refreshes memory and gives up |
| Push.HealthyDelivery | cmd/wad/push.go:99-172 | with a healthy server: one post, two posts or a drop, and when |
| Push.SecondStaleEventIsLost | cmd/wad/push.go:85-136 | of two events with the same stale secret the second is dropped |
| AgentHooks.FilterOurHooks | internal/api/agent_hook.go:330-345 | everybody else's entries in order |
| AgentHooks.InstallHook | internal/api/agent_hook.go:305-327 | the groups of one event |
| AgentHooks.InstallEvents | internal/api/agent_hook.go:284-286 | all three events |
| AgentHooks.MergeAgentHooks | internal/api/agent_hook.go:269-301 | the outcome for every file, the malformed and the null one included |
| AgentHooks.MergeInstalls | internal/api/agent_hook.go:269-287 | an object is written back with one group of one command, spelled out, behind what is left of each of the three events, and every other key and event as it was |
| AgentHooks.InstalledMeans | internal/api/agent_hook.go:303-327 | each event then has exactly one marked entry and all foreign ones in order |
| AgentHooks.OtherFiles | internal/api/agent_hook.go:270-275 | a missing file is created, a malformed one or one without an object is left alone, null panics |
| AgentHooks.LastMergeWins | internal/api/agent_hook.go:269-301 | merging into what a merge has written: the last command wins, if and only if the first carries the marker |
| AgentHooks.ForeignExactly | internal/api/agent_hook.go:330-345 | which entries are kept, one by one and in order |
| AgentHooks.StripGroupTwice | internal/api/agent_hook.go:309-320 | a stripped group is not stripped further |
| AgentHooks.StripGroupKeeps | internal/api/agent_hook.go:309-356 | a group goes exactly if it held nothing but our entries; otherwise all its other fields stay |
| AgentHooks.InstallOverInstall | internal/api/agent_hook.go:303-327 | one command over another leaves no trace of the first, if and only if the first carries the marker |
| AgentHooks.LastWriterWins | internal/api/agent_hook.go:269-287 | for every settings tree, merging twice is merging the last command once, if and only if the first carries the marker |
| AgentHooks.InstalledContents | internal/api/agent_hook.go:303-345 | exactly one entry of ours, in the last group, and every foreign entry in its old order |
| AgentHooks.MergeLeavesTheRest | internal/api/agent_hook.go:277-287 | every other key and event keeps its value |
| SecretsEnv.ParseEnvFile | cmd/vpsmctl/secrets.go:420-455 | the parser's loop, with the scanner's line limit |
| SecretsEnv.AnyLine | cmd/vpsmctl/secrets.go:430-449 | white space around key and value, an export in front and matching quotes make no difference |
| SecretsEnv.Skipped | cmd/vpsmctl/secrets.go:430-448 | blank lines, comments, lines without = and lines with nothing before it are passed over |
| SecretsEnv.LinesOfFile | cmd/vpsmctl/secrets.go:428-430 | the lines of a file with or without a final newline |
| SecretsEnv.ExportEnv | cmd/vpsmctl/secrets.go:287-295 | every key once, in order, one line each |
| SecretsEnv.SortedKeys | cmd/vpsmctl/secrets.go:288-292 | the keys, each once, in string order |
| SecretsEnv.OrderOfKeys | cmd/vpsmctl/secrets.go:292 | the order is that of the first difference, a prefix first |
| SecretsEnv.RenderExactly | cmd/vpsmctl/secrets.go:293-295 | one line key=value for each pair, in order |
| SecretsEnv.LineRoundTrip | cmd/vpsmctl/secrets.go:430-449 | a line brings its pair back if and only if key and value are trimmed, the key is a plain name and the value not quoted |
| SecretsEnv.RoundTrip | cmd/vpsmctl/secrets.go:293-295 | a list of pairs comes back if and only if each is on one line, fits the scanner and survives its line |
| SecretsEnv.ExportRoundTrip | cmd/vpsmctl/secrets.go:287-295 | the same for a map and its sorted keys |
| BrowserEnv.WriteBrowserEnv | internal/api/handlers_browser.go:356-389 | the rewriting loop |
| BrowserEnv.ReadResolution | internal/api/handlers_browser.go:269-282 | the reading loop |
| BrowserEnv.ResolutionIff | internal/api/handlers_browser.go:274-276 | which lines set the resolution |
| BrowserEnv.ValueOnLine | internal/api/handlers_browser.go:275-279 | what such a line says |
| BrowserEnv.FirstIsRead | internal/api/handlers_browser.go:274-281 | the first such line is the one that is read |
| BrowserEnv.WrittenExactly | internal/api/handlers_browser.go:362-379 | line by line what a write leaves: empty lines at the front go, resolution lines are replaced in place, all others stay |
| BrowserEnv.LastResolutionWins | internal/api/handlers_browser.go:362-383 | for every file, writing one resolution after another leaves exactly what writing the second leaves |
| BrowserEnv.OtherLinesStay | internal/api/handlers_browser.go:354-376 | every other non-empty line stays, in order |
| BrowserEnv.ReadAfterWrite | internal/api/handlers_browser.go:274-279 | what is read back, for every resolution |
| BrowserEnv.ReadsWhatWasWritten | internal/api/handlers_browser.go:274-279 | it is the resolution written if and only if that has no trailing space and no quote at either end |
| Paths.ReduceIsCanonical | internal/androidupdate/manifest.go:163-166 | cleaning leaves proper components, ".." only in front and never below a root |
| Paths.CleanTwice | internal/androidupdate/manifest.go:163-166 | cleaning is idempotent, which the "not normalized" comparison relies on |
| Paths.CleanKeepsTheTarget | internal/api/handlers_fdroid.go:87-89 | from every directory a cleaned path leads where the path led |
| Paths.RootedCleanHasNoDotDot | internal/api/handlers_fdroid.go:87-95 | a cleaned rooted path has no ".." component |
| Paths.JoinBelow | internal/api/handlers_fdroid.go:104-105 | joining a path without ".." appends its components to the directory |
| FileServing.RepoPath | internal/api/handlers_fdroid.go:104-109 | the joined path is the root with the cleaned path appended |
| FileServing.FdroidDecision | internal/api/handlers_fdroid.go:85-109 | the route's prefix goes, neither rejection is ever taken, and everything but the bare root is served from below the root |
| FileServing.ServedDirectories | internal/api/handlers_fdroid.go:104 | below a clean data directory both served directories are where their names say |
| FileServing.SafeRelativeIff | internal/androidupdate/manifest.go:156-171 | the accepted names are exactly the canonical relative paths without ".." |
| FileServing.SafeRelativeStaysInside | internal/androidupdate/manifest.go:233 | every accepted name joins to the updates directory or below it |
| FileServing.Load | internal/androidupdate/manifest.go:103-152 | a manifest loads if and only if every part is valid |
| FileServing.ArtifactByFile | internal/androidupdate/manifest.go:205-218 | found if and only if declared, the full image before the first patch of that name |
| FileServing.OpenArtifact | internal/androidupdate/manifest.go:224-234 | a name is opened if and only if a valid catalogue declares it, and then inside the updates directory |
| Prompts.ContractIsThere | internal/aiprompts/prompts.go:146-158 | whatever the template, the whole contract is in the prompt as one block |
| Prompts.EditedTextSurvives | internal/aiprompts/prompts.go:154-156 | splicing replaces the marks and nothing else |
| Prompts.ThresholdIsFilledIn | internal/aiprompts/prompts.go:150-153 | with a positive threshold no mark is left in the contract |
| Prompts.WhichContract | internal/aiprompts/prompts.go:160-182 | which prompt carries which contract, and that the work instruction carries none |
| Prompts.DecimalIsTheNumber | internal/aiprompts/prompts.go:151-153 | the threshold is written as the number it is |
| Prompts.AppendedForm | internal/aiprompts/prompts.go:157 | without the mark the contract goes to the end after a blank line |
| Prompts.Registry.constructor | internal/aiprompts/prompts.go:100-126 | a load takes the known prompts that are not blank |
| Prompts.Registry.Set | internal/aiprompts/prompts.go:254-281 | the new state, whatever other edits do between its change and its save, and when there are no failures |
| Prompts.EditExactly | internal/aiprompts/prompts.go:221-270 | which edits are accepted and what is in force afterwards, for every name and text |
| Prompts.LoadExactly | internal/aiprompts/prompts.go:109-140 | what is in force after a load, for every file and name |
| Prompts.SetInSteps | internal/aiprompts/prompts.go:264-281 | the two steps of an edit in a run are that edit |
| Prompts.Registry.Preamble | internal/aiprompts/prompts.go:160-177 | the assembled prompt carries its contract |
| Prompts.EveryPromptCarriesItsContract | internal/aiprompts/prompts.go:142-177 | for every file, run and threshold |
| Prompts.RestartKeepsSavedEdits | internal/aiprompts/prompts.go:254-281 | after any run of overlapping edits a restart brings the memory back if and only if the last snapshot saved left what the last edit left |
| Prompts.EditAloneIsKept | internal/aiprompts/prompts.go:254-281 | after any run an edit that nothing overlaps survives a restart once its save has worked |
| Prompts.OverlapLosesAnEdit | internal/aiprompts/prompts.go:264-281 | any two edits that save in the opposite order: both report success and a restart loses the second |
| Prompts.EditsKeepTheMark | internal/aiprompts/prompts.go:221-281 | editing, overlapping or not, never removes the contract's place, nor brings a threshold mark of its own |
| UploadName.Base | internal/api/api.go:3096-3101 | the part after the last separator |
| UploadName.SanitisedExactly | internal/api/api.go:3102-3116 | character by character what stays, goes or becomes an underscore |
| UploadName.SpaceAround | internal/api/api.go:3098 | white space around the name makes no difference |
| UploadName.Collapse | internal/api/api.go:3118-3121 | the loop ends and cuts each run of underscores to one |
| UploadName.ReplaceKeepsSqueezed | internal/api/api.go:3119-3121 | one replacement never changes what the name collapses to |
| UploadName.SafeUploadName | internal/api/api.go:3095-3140 | the whole pipeline with its loops |
| UploadName.CutIsSafe | internal/api/api.go:3125-3138 | truncation keeps the beginning and an extension of up to 16 characters |
| UploadName.ResultIsSafe | internal/api/api.go:3085-3140 | safe characters only, at most 96, no leading dot, no double underscore |
| UploadName.EmptyIff | internal/api/api.go:3091-3094 | nothing is left if and only if the base name is dots and control characters |
| UploadName.SecondPass | internal/api/api.go:3117-3138 | a second pass changes nothing if and only if the cut did not end at a dot |
| UploadName.CutAtDotHappens | internal/api/api.go:3128-3138 | a name where it does |
| LoginMfa.MirrorAfterWrite | internal/api/api.go:2917-2963 | a write is what is read back, for that user only |
| LoginMfa.Panel.UserHasMFA | internal/api/api.go:2917-2929 | the reading loop |
| LoginMfa.Panel.SetUserMFA | internal/api/api.go:2948-2963 | the writing loop |
| BackupCodes.SpentCounts | internal/auth/backup_codes.go:167-181 | marking a code takes one entry of that code away and none of any other |
| BackupCodes.FreshCounts | internal/auth/backup_codes.go:70-93 | a code can be spent as often as it was handed out |
| BackupCodes.KeyIgnoresDashAndCase | internal/auth/backup_codes.go:94-100 | dashes and case of a typed code make no difference |
| BackupCodes.Store.TryConsume | internal/auth/backup_codes.go:159-186 | which code is accepted, and that the save goes over whatever others wrote since the load |
| LoginMfa.Panel.VerifyLoginMFA | internal/api/handlers_auth.go:100-152 | the verdict and what it does to the stores, whatever other requests write between the load and the save of the codes |
| LoginMfa.Panel.HandleLogin | internal/api/handlers_auth.go:249-298 | when a token is issued, and the new state |
| LoginMfa.WhoGetsIn | internal/api/handlers_auth.go:100-152 | for every state and every login, exactly who gets a token: without a session; with a failed lookup if the mirror lists no factor; without a verified factor; or by a trusted device, an accepted code or an unused backup code |
| LoginMfa.WhyNot | internal/api/handlers_auth.go:256-270 | which refusal means what |
| LoginMfa.RememberedDevice | internal/api/handlers_auth.go:277-289 | a device is trusted after a login exactly if it was before or that login met a verified factor and asked for it |
| LoginMfa.RememberedNeedsNoCode | internal/api/handlers_auth.go:126-131 | and the next login with its cookie then needs no code |
| LoginMfa.LoginSyncsTheMirror | internal/api/handlers_auth.go:104-108 | an answered lookup is left in the mirror, for its own user only |
| LoginMfa.OutsideTheMirror | internal/api/handlers_auth.go:101-103 | without a session or for an unlisted user a failed lookup lets the password through |
| LoginRuns.LoginInSteps | internal/api/handlers_auth.go:100-152 | the steps of a login in a run, however far apart, are that login |
| LoginRuns.OpensAtCheck | internal/api/handlers_auth.go:100-139 | at every point of every run, which logins are let in at their check |
| LoginRuns.OnlyTheAdmittedGetIn | internal/api/handlers_auth.go:206-247 | in every run a token goes only to a login whose password and limits had let it through |
| LoginRuns.EnrolAndDisable | internal/api/mfa.go:263-339 | what enrolling, disabling, revoking and the emergency reset leave in the stores |
| LoginRuns.MirrorIsWhatWasWritten | internal/api/api.go:2948-2963 | in every run of overlapping requests the mirror is what the last request to write it had been told |
| LoginRuns.MirrorIsTheLastWord | internal/api/handlers_auth.go:104-108 | the mirror is the provider's last word once the request that heard it has written last; otherwise if and only if the last writer had been told the same |
| LoginRuns.SettledIff | internal/api/mfa.go:246-277 | while requests about a user take turns, that is the case if and only if no enrolment failed to save its codes, and no emergency reset happened, since the mirror was last written |
| LoginRuns.FailsClosed | internal/api/handlers_auth.go:109-121 | after any run a login whose lookup fails gets in if and only if the last writer had been told "no factor"; once settled, if and only if that was the provider's last word |
| LoginRuns.UnsavedEnrolmentIsForgotten | internal/api/mfa.go:263-277 | after any run an enrolment whose codes were not saved leaves the mirror off, and a failed lookup lets the login through |
| LoginRuns.StaleLookupTakesTheMirrorBack | internal/api/handlers_auth.go:104-108 | after any run a login that asked before an enrolment and writes after it turns the mirror off again |
| LoginRuns.OneShotIff | internal/auth/backup_codes.go:151-186 | in every run of overlapping requests a code handed out once stays one-shot if and only if no login saves a file that it loaded before the code was used |
| LoginRuns.OneAtATimeIsOneShot | internal/auth/backup_codes.go:151-186 | when no other request touches the file between a load and its save, every code opens at most as many logins as it was handed out |
| LoginRuns.OverlapOpensTwice | internal/api/mfa.go:457-459 | two logins that both load before either saves: one code issues two tokens |
| LoginRuns.OtherCodeBringsItBack | internal/auth/backup_codes.go:159-186 | the overlap need not be with the same code: a late save of another login puts a used code back on file |
| LoginRuns.TrustIsEarned | internal/api/handlers_auth.go:277-289 | a user has a trusted device only after proving a code or a backup code, even if old device files are written back |
| DataSaver.Watch.SwitchOff | internal/singbox/singbox.go:506-529 | the saved setting, and what the running service routes, after one switch |
| DataSaver.Watch.Revert | internal/api/datasaver_watcher.go:96-103 | each listed device is switched as far as its own switch goes |
| DataSaver.Watch.HandleExit | internal/api/datasaver_watcher.go:82-106 | one exit of a tick |
| DataSaver.Watch.RunTick | internal/api/datasaver_watcher.go:69-117 | a tick over all exits, in any order |
| DataSaver.CountIsBacked | internal/api/datasaver_watcher.go:84-94 | in every run the count stays below two and below the failed probes seen in a row |
| DataSaver.UnwatchedIsUntouched | internal/api/datasaver_watcher.go:69-81 | only exits with a device on are counted, and without a device list nothing happens |
| DataSaver.RevertNeedsTwoFailures | internal/api/datasaver_watcher.go:89-103 | a device is switched off only after two failed probes without a success between |
| DataSaver.NoDeviceStaysOnThroughTwoFailures | internal/api/datasaver_watcher.go:5-10 | no device stays on through two failing ticks in a row, when switching is not refused; when the service restarts, its traffic has left the proxy |
| DataSaver.SavedOnlyStaysRouted | internal/api/datasaver_watcher.go:74-81 | a device saved as off without a restart is no longer watched: it stays on the proxy through any ticks if and only if none of them restarts the service |

## Left out

- Rounding of float64 sums: money is exact; token counters are unbounded and do not wrap at 64 bits.
- JSON, base64, protobuf, HMAC and hashing: taken as done or as injective functions.
- Concurrency: overlapping logins, enrolments, prompt edits, stash writes and deliveries are split into their steps; an aggregation pass, a watchdog tick and a rewrite of settings.json or .env are one step each, which no other request comes into.
- Writing a temporary file and renaming it is one step, although two writers of one file share the temporary name.
- MessageStash.Session.StashMsg: memory and file in one step; between the two, other inserts may come in runs only.
- LoginRuns.TrustIsEarned: loading and saving a device file is one step; what an overlap can do, writing an old file back, is a step of its own.
- LoginRuns.MirrorIsTheLastWord: a run is one life of the process; the mirror's copy in config.json, saved as well as it can be, is not read back.
- A pass of the aggregator reads the clock once, and a file does not change between its stat and its parse.
- newestProjectJSONL and the session-to-directory store (Put, ResolveName): a maximum loop and a lookup; their answer is an input of the pass.
- Session status and QR pushes of the WhatsApp daemon, history sync and message formatting: no state beyond one field.
- Manifest hashes arrive trimmed and lower-cased; PatchFor and UpToDate are one comparison each.
- Parsing HTML into events, and which events an unterminated file still yields, belongs to Python's html.parser.
- The expiry of a trusted device and errors of the device and code stores are one input each; rate limit, lockout and password check are one input together.
- FileServing.FdroidDecision: opening the file, directory checks, content types and symbolic links are not modelled.
- Prompts.Registry.Set: failures are named, not worded.
- Route registration, proxies, sockets, middleware, deployment, metrics, queues and the command line: input and output without a law of their own.

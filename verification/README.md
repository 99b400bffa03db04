# SupportFlow: a verified model of its core

This project models the parts of SupportFlow whose correctness rests on more than one function:
the algorithms that rewrite, print, scan, sort, price and cut up data, and the protocols that
claim, cache, alert, rotate, retry, number, deliver and migrate. Each module follows one source
file or one protocol. Code that computes a value is a function; code that changes state is a
class or a method with a loop, proved against a specification; and protocols are state machines
whose theorems hold of every list of steps, so of every interleaving, crash and redelivery.

- `SchemaInliner`: the rewriter that removes `$ref` from tool schemas, with a semantics of JSON
  Schema it preserves.
- `PdfStrings`, `PdfReader`, `PdfWriter` (with `Decimal`): the PDF writer, and an independent reader
  of ISO 32000-1 that recovers what was written.
- `Fence` (with `Whitespace`): the fence around untrusted text, its pattern as a language of strings
  and a matcher proved exact for it.
- `AnalysisTable`, `AnalysisRuns`: analysis rows from request to claim to outcome, with worker deaths
  and the reaper.
- `CacheKeys`, `AnalyticsCache`: the versioned cache, its keys as strings, and interleaved readers and
  writers under outages.
- `SlaClock`, `SlaRanking`, `SlaSweep`, `SlaRuns`: the SLA clock, the SQL ranking that must agree with
  it, the sweep and its timeline.
- `Sessions`: refresh-token rotation as interleaved transactions with row locks.
- `AiErrors`, `AiCalls`, `ProviderErrors`: reduction of vendor replies and exceptions, the retry loop
  and its ledger.
- `Pricing`, `EmbeddingOrder`, `TicketNumbers`, `Backdate`, `Email`: one file each of the source.
- `Schema`, `Migrations`: the four revisions and every walk along them.
- `Segments`, `Chunker`: cutting a document into overlapping passages.

`dafny verify dfyconfig.toml` checks everything.

## Where the code and its documentation part

The model follows the code. Where a promise turned out not to hold, the failing run or input is a
lemma, and so is the exact condition under which the promise does hold.

- "At most one in flight" rests on a read followed by a write without a lock between them: two
  requests that overlap on one ticket both queue (`AnalysisRuns.OverlappingRequestsDuplicate`,
  `AnalysisRuns.DuplicateFreeExactly`).
- A version read that fails yields 0, which names entries older than every increment, so the request
  whose read failed can miss a commit already announced; no other request can
  (`AnalyticsCache.FreshExactlyWhenItsReadSucceeds`, `AnalyticsCache.ReachedIsFresh`). Staleness under
  lost increments is one TTL plus the time between computing and storing, not one TTL
  (`AnalyticsCache.StalenessExactly`).
- The overdue count and the risk list of one answer are meant to agree. The count has no limit and an
  instant of its own, up to a TTL old, and the seconds shown are truncated towards zero, so a deadline
  less than a second ahead shows 0 and is not yet overdue (`SlaRanking.ElevenAgainstTen`,
  `SlaRanking.CachedCountIsBehind`, `SlaRanking.HalfASecondAhead`; exactly when they agree:
  `SlaRanking.CountIsTheBreachesExactly`, `SlaRanking.CountIsTheNonPositiveExactly`).
- "A timer that stopped late still breaches" fails for a resolution between two sweeps: the candidate
  query leaves the ticket out (`SlaRuns.LateResolutionIsMissed`, `SlaRuns.BreachIsToldExactlyWhenOpen`).
- A replay revokes what its UPDATE can see. A rotation under way at that moment commits a token the
  UPDATE cannot see (`Sessions.RotationEscapesReplay`); it is complete exactly when no exchange of the
  user holds a row lock as the replay is detected (`Sessions.ReplayIsCompleteExactly`).
- Two organizations whose ids share eight bytes share a lock (`TicketNumbers.StrangersWait`,
  `TicketNumbers.WaitsOnlyForItsLock`).
- "A chunk never exceeds the target" is false by up to fifty tokens (`Chunker.TargetIsExceeded`,
  `Chunker.ChunksAreBounded`): the room left for the repetition has none for the blank lines in it. It
  holds of all documents whose segments have at most m tokens exactly when m is at most 650, and the
  source allows 700
  (`Chunker.TargetHoldsExactly`, `Chunker.TargetHoldsExactlyForParagraphs`).
- A later revision says that an enum type is dropped with the table that used it; it is dropped by
  the baseline's own statements (`Migrations.DroppingTypesIsNeeded`).
- "A breached timer never gets its warning afterwards" supposes that its deadline does not move: after
  a policy edit or a change of priority it can (`SlaRuns.ExtendedRun`,
  `SlaRuns.WarningsStayInOrderExactly`).
- A carriage return in a line does not survive the PDF; a line feed does (`PdfWriter.CarriageReturnIsLost`,
  `PdfWriter.PdfRoundTrip`).

## Model

| member | source | states |
|---|---|---|
| `SchemaInliner.TerminatesIffResolvable` | backend/app/ai/provider.py:177-198 | the rewriter returns, given enough stack, on exactly the schemas whose reachable definitions exist and do not refer back to themselves; on all others it raises on every stack |
| `SchemaInliner.DeeperStackAgrees` | backend/app/ai/provider.py:177-198 | a deeper stack never changes an answer: the result is a function of the schema and its definitions alone |
| `SchemaInliner.ResultIsRefFree` | backend/app/ai/provider.py:177-198 | no `$ref` is left anywhere in the result, when no definition is a bare string |
| `SchemaInliner.RefFreeIsFixed` | backend/app/ai/provider.py:177-198 | a schema without references comes back unchanged, whatever definitions it is read with |
| `SchemaInliner.InlineIsIdempotent` | backend/app/ai/provider.py:177-198 | rewriting a rewritten schema, with any definitions, terminates and changes nothing |
| `SchemaInliner.StringDefinitionLeavesARef` | backend/app/ai/provider.py:195-198 | the hypothesis on string definitions is needed: a concrete schema whose result still holds a `$ref` |
| `SchemaInliner.PointerNamesLastSegment` | backend/app/ai/provider.py:195-198 | splitting a reference at its last slash names the definition that a `#/$defs/Name` pointer denotes |
| `SchemaInliner.ResultIsSchema` | backend/app/ai/provider.py:177-198 | every keyword of the result still holds sub-schemas where the original held them |
| `SchemaInliner.InlinePreservesMeaning` | backend/app/ai/provider.py:177-198 | every JSON instance is accepted by the result, read without definitions, exactly when the original accepts it with its `$defs`; siblings of a `$ref` are ignored as in section 8.3 of JSON Schema draft-07 core |
| `SchemaInliner.KeywordPreservesMeaning` | backend/app/ai/provider.py:177-198 | the same for every keyword taken alone: combinators, items, properties, additional properties, and any assertion on plain values |
| `SchemaInliner.ToolSchemaIsEquivalent` | backend/app/ai/provider.py:201-219 | for every document, with definitions, with an empty list of them or with none: the schema a provider is sent exists, holds no reference, and accepts exactly the answers that the document accepts |
| `PdfStrings.EscapeIsPerCharacter` | backend/scripts/phase_x_walkthrough.py:223-230 | three whole-text replacements in sequence are one escape of each character: the backslashes that the later ones add are never escaped again |
| `PdfStrings.EscapedTextDecodes` | backend/scripts/phase_x_walkthrough.py:223-230 | a literal-string reader (ISO 32000-1, section 7.3.4.2) that meets an escaped text stops at its closing parenthesis and returns the text with raw line endings normalised |
| `PdfStrings.NormalisedIsIdentity` | backend/scripts/phase_x_walkthrough.py:223-230 | that normalisation changes a text exactly when it holds a carriage return |
| `PdfWriter.EntriesAreTwentyBytes` | backend/scripts/phase_x_walkthrough.py:214-216 | while every offset is under ten digits each cross-reference entry takes exactly twenty bytes (section 7.5.4) |
| `PdfWriter.ReaderFindsStart` | backend/scripts/phase_x_walkthrough.py:213-219 | a reader that looks for the last `startxref` finds the offset at which the table really begins (section 7.5.5) |
| `PdfWriter.ReaderFindsTable` | backend/scripts/phase_x_walkthrough.py:213-219 | it then finds the `xref` line and the right number of entries |
| `PdfWriter.FileIsFramed` | backend/scripts/phase_x_walkthrough.py:204-219 | it finds the header first, the free entry at the head of the table, and a trailer whose `/Size` is the number of entries declared |
| `PdfWriter.ReaderFindsObject` | backend/scripts/phase_x_walkthrough.py:204-216 | following entry `k` leads to the text `k 0 obj` and the body of object `k` |
| `PdfWriter.ReaderFindsRoot` | backend/scripts/phase_x_walkthrough.py:217-219 | behind the last entry a reader finds the trailer, and its `/Root` names the catalog (section 7.5.5) |
| `PdfWriter.ReaderFindsContent` | backend/scripts/phase_x_walkthrough.py:196-202 | from the catalog its `/Pages`, the tree’s first kid and the page’s `/Contents` lead, by reference and recorded offset each, to the stream object (section 7.7) |
| `PdfWriter.StreamIsContent` | backend/scripts/phase_x_walkthrough.py:195-202 | reading as many bytes as `/Length` says after `stream` of the content object gives exactly the content (section 7.3.8) |
| `PdfWriter.PdfReadsBack` | backend/scripts/phase_x_walkthrough.py:179-220 | a reader that starts at the end of the finished file and walks from the trailer to the first page’s content finds the given lines as its `Tj` operands, with raw line endings normalised |
| `PdfWriter.PdfRoundTrip` | backend/scripts/phase_x_walkthrough.py:179-220 | they are exactly the given lines if and only if no line holds a carriage return; a line feed is harmless |
| `PdfWriter.CarriageReturnIsLost` | backend/scripts/phase_x_walkthrough.py:223-230 | a concrete document: the line that is one carriage return is read back as a line feed |
| `PdfWriter.SmallFilesFit` | backend/scripts/phase_x_walkthrough.py:214-216 | every file under 10^10 bytes keeps its offsets within ten digits |
| `PdfWriter.WriteObjects` | backend/scripts/phase_x_walkthrough.py:204-208 | the loop that grows the buffer records, for every object, the length of what precedes it |
| `PdfWriter.WriteEntries` | backend/scripts/phase_x_walkthrough.py:215-216 | the loop over the offsets prints the table of the objects they were recorded for |
| `PdfWriter.Assemble` | backend/scripts/phase_x_walkthrough.py:204-220 | the buffer ends as header, objects, table and trailer, with the table offset taken before the table |
| `PdfWriter.EncodableContent` | backend/scripts/phase_x_walkthrough.py:189-193 | the content can be encoded exactly when every character of every line is below 256 |
| `PdfWriter.APdf` | backend/scripts/phase_x_walkthrough.py:179-220 | a line outside Latin-1 is an error; otherwise a reader that follows the offsets recovers the lines exactly when none holds a carriage return |
| `Fence.MatchEndIsExact` | backend/app/ai/prompts.py:77-83 | the matcher reports an end exactly where the pattern, case folded, has a match at that place, and a match has only one end |
| `Fence.LettersFold` | backend/app/ai/prompts.py:77-83 | which characters each letter of the pattern stands for when case is ignored |
| `Fence.CaseIsIgnored` | backend/app/ai/prompts.py:77-83 | so a text in another case matches at the same places |
| `Fence.MatchAlphabet` | backend/app/ai/prompts.py:77-83 | past its three opening angle brackets a match holds no opening angle bracket, square bracket or full stop, so matches never overlap and never straddle a replacement |
| `Fence.DefusedIsMarkerFree` | backend/app/ai/prompts.py:99-106 | no string survives `defuse` with a match in it |
| `Fence.DefuseKeepsMarkerFree` | backend/app/ai/prompts.py:99-106 | a text without a match comes back unchanged |
| `Fence.DefuseFixedPoints` | backend/app/ai/prompts.py:99-106 | a text is unchanged exactly when it has no match, and defusing twice is defusing once |
| `Fence.DefuseAtFirst` | backend/app/ai/prompts.py:99-106 | the first match is replaced whole; what stands before it is kept as it is, and what follows is defused in turn |
| `Fence.DefuseReplacesEachMatch` | backend/app/ai/prompts.py:99-106 | every text is cut into pieces no match starts in and the matches between them, and its defused form is those pieces in order with one replacement for each match |
| `Fence.FenceHasTwoMarkers` | backend/app/ai/prompts.py:109-122 | for every label and text the output has exactly two matches, the opening marker and the closing one, at known places, and between them stands the defused text |
| `Fence.FencedTextIsRecovered` | backend/app/ai/prompts.py:109-122 | a reader that knows only the pattern and cuts at its first two matches recovers exactly the defused text |
| `Fence.FenceParsesOneWay` | backend/app/ai/prompts.py:109-122 | two outputs are equal only if their defused labels and texts are |
| `AnalysisTable.QueueingKeepsTheGuard` | backend/app/services/ai_analysis_service.py:220-271 | writing the rows of a request leaves at most one row in flight for each ticket and operation exactly when none of the operations it queues is in flight at the moment of the write |
| `AnalysisTable.Analyses.Request` | backend/app/services/ai_analysis_service.py:187-279 | asked with nothing else going on, a request adds one pending row of its own tenant and ticket for each wanted operation neither pending nor processing, touches no other row, and leaves every wanted operation under way |
| `AnalysisTable.SecondClaimTakesNothing` | backend/app/repositories/ai_repository.py:152-202 | a redelivered batch owns the same rows and takes none of them |
| `AnalysisTable.LoadedIsInOrder` | backend/app/repositories/ai_repository.py:73-112 | a batch is worked in operation order, each row once, none left out |
| `AnalysisTable.Analyses.Run` | backend/app/services/ai_analysis_service.py:566-719 | a run takes exactly the pending rows of its batch that are its tenant’s; each row it reaches ends completed with its answer or failed with its message, its subject unchanged; the others stay in processing if it is cut short; no other row changes, and the counts are the answers, the failures and the rows passed over |
| `AnalysisTable.Analyses.Work` | backend/app/services/ai_analysis_service.py:669-708 | the loop with one commit for each operation: an answer completes its own row with that result, a failure fails it with that message, and the others keep what they had |
| `AnalysisTable.Analyses.Reap` | backend/app/repositories/ai_repository.py:220-276 | exactly the rows in processing older than the cutoff become failed with the stated message, their subject unchanged, and no older one is left |
| `AnalysisRuns.RunsAreSound` | backend/app/services/ai_analysis_service.py:566-754 | in every interleaving of requests, deliveries, deaths and reaper passes: payloads are present, a living worker holds its rows alone and within its tenant, and provider runs are distinct |
| `AnalysisRuns.StepsWrite` | backend/app/services/ai_analysis_service.py:1000-1034 | the same of the steps that interleave: which rows a claim, a finished call, a death and the reaper change, and to what |
| `AnalysisRuns.RowsMoveOnce` | backend/app/repositories/ai_repository.py:152-202 | in every run a row leaves pending at most once and turns terminal at most once |
| `AnalysisRuns.SettledRowsStay` | backend/alembic/versions/20260911_2027_bd8e646eeff8_baseline_schema.py:631-634 | a terminal row keeps its payload and never changes again |
| `AnalysisRuns.NoSecondBill` | README.md:931-940 | however often a batch is delivered, provider runs are of distinct rows and no more than the rows ever claimed |
| `AnalysisRuns.SweepSparesTheLiving` | backend/app/workers/maintenance_tasks.py:99-147 | no reaper pass changes a row that a living worker holds |
| `AnalysisRuns.AbandonedClaimsEnd` | backend/app/core/config.py:84-90 | a row stays in processing no longer than the threshold plus the time since the last sweep, whatever became of its worker |
| `AnalysisRuns.WorkStaysInTenant` | backend/app/repositories/ai_repository.py:115-202 | a task handed ids of another tenant changes none of those rows |
| `AnalysisRuns.SoundExactlyWithRoom` | README.md:956-961 | all of this holds in every run if and only if the hard time limit is not above the reaping threshold; otherwise a living worker loses its row |
| `AnalysisRuns.DefaultsAreSound` | backend/app/core/config.py:62-90 | the settings that ship, 120 seconds against 900, are such a configuration |
| `AnalysisRuns.SerialRequestsNeverDuplicate` | backend/app/services/ai_analysis_service.py:220-271 | when requests on one ticket do not overlap, at most one row for a ticket and operation is in flight at every point of every run |
| `AnalysisRuns.DuplicateFreeExactly` | backend/app/services/ai_analysis_service.py:220-271 | of every run, overlapping requests or not: it never has two such rows if and only if none of its writes queues an operation that is in flight at that moment |
| `AnalysisRuns.OverlappingRequestsDuplicate` | backend/app/services/ai_analysis_service.py:330-395 | when they do overlap, two requests that both read before either writes leave two rows in flight: a concrete run |
| `CacheKeys.KeysAreDistinct` | backend/app/core/cache.py:110-135 | two questions with one key are of the same tenant, row scope, namespace and version, and their parameters have one digest |
| `CacheKeys.EntriesAreNotCounters` | backend/app/core/cache.py:110-140 | no entry is ever written under the key of a version counter |
| `CacheKeys.CountersAreDistinct` | backend/app/core/cache.py:138-140 | two tenants never share a counter |
| `AnalyticsCache.Redis.Invalidate` | backend/app/core/cache.py:174-201 | one counter moves by one, or nothing moves in an outage; entries and other tenants are untouched |
| `AnalyticsCache.Redis.ReadThrough` | backend/app/core/cache.py:222-278 | a live entry is returned and nothing is written; otherwise the produced value is, and is stored for one TTL and no longer, leaving every other entry alone |
| `AnalyticsCache.Redis.Ask` | backend/app/core/cache.py:204-252 | a caller is served if and only if a live entry of just its endpoint, tenant, row scope and parameters is on file at the counter’s version, and is given that entry; what it computes instead is filed under the same; after an increment a caller that can read the counter is given nothing older |
| `AnalyticsCache.RepliesAreOwn` | README.md:1186-1192 | in every run no reply was computed for another tenant, row scope or endpoint |
| `AnalyticsCache.ReachedIsFresh` | README.md:1194-1199 | in every run of every configuration, a request whose own version read got through is answered with every commit announced before it started, whatever failed for other requests or tenants |
| `AnalyticsCache.FreshExactlyWhenItsReadSucceeds` | backend/app/core/cache.py:143-171 | where any call may fail, the replies of the requests whose version read ended one way are all fresh, in all runs, if and only if that way is that it got through: read as 0 it names entries older than the increments |
| `AnalyticsCache.RunsAreFresh` | README.md:1194-1199 | so in a run in which no version read fails every reply is fresh, in every interleaving of readers and writers |
| `AnalyticsCache.FreshExactlyWhenVersionsAreRead` | backend/app/core/cache.py:143-171 | and every reply of all runs is fresh if and only if no version read can fail |
| `AnalyticsCache.StalenessIsBounded` | README.md:2092-2097 | with increments lost, every reply still includes every commit older than one TTL plus the delay between the first statement of a computation and its storing |
| `AnalyticsCache.StalenessExactly` | backend/app/core/cache.py:222-278 | that sum, less one tick, is the exact bound: a smaller one fails in some run |
| `SlaClock.StateByElapsed` | backend/app/services/sla_service.py:147-203 | the four states told by the share of the target used up: exactly one holds, with the boundary on the side the branches put it |
| `SlaClock.PositionReports` | backend/app/services/sla_service.py:147-203 | a running or stopped timer reports its own deadline and the whole seconds, truncated, between the deadline and the work or the present |
| `SlaClock.DueAlertsAreOldEnough` | backend/app/repositories/sla_repository.py:81-98 | a ticket with a timer in its warning band or in breach is always as old as the candidate query asks, for either timer |
| `SlaClock.CandidateBoundIsTight` | backend/app/services/sla_service.py:130-144 | a ticket exactly as old as the bound has a warning due |
| `SlaClock.Edited` | backend/app/services/sla_service.py:473-532 | a partial policy edit is accepted exactly when the merged resolution target is not below the response target, and then satisfies every constraint |
| `SlaClock.SqlDueIsBinding` | backend/app/repositories/analytics_repository.py:472-485 | the due instant SQL orders by is the deadline of the clock’s own binding timer, for every ticket |
| `SlaClock.BindingIsTheSoonest` | backend/app/services/analytics_service.py:507-525 | the binding timer is a running one with no more seconds left than the other, the response timer on a tie, and there is none exactly when both are stopped |
| `SlaClock.SqlDueIsTheOracles` | backend/scripts/phase_s_walkthrough.py:752-764 | for an unresolved ticket it is the resolution deadline after a reply and the response deadline before one |
| `SlaClock.OverdueAgrees` | backend/app/repositories/analytics_repository.py:487-513 | overdue means breached; it means no seconds left too, except within the last second before a deadline |
| `SlaRanking.RiskList` | backend/app/services/analytics_service.py:440-504 | the loop keeps the order of the query’s first `limit` rows, reports the clock’s own numbers for exactly the tickets with a deadline, and the time remaining ascends |
| `SlaRanking.CountIsTheBreachesExactly` | backend/app/services/analytics_service.py:390-437 | the overdue count has its own instant, earlier when it comes from the cache and later when it does not: as many risks are shown in breach as it says, or as the limit has room for, if and only if no ranked deadline passes between the two instants; it is shown in full if and only if it is within the limit as well |
| `SlaRanking.CountIsTheNonPositiveExactly` | backend/scripts/phase_s_walkthrough.py:711-716 | the walkthrough’s comparison, of the count with the risks that show no seconds left, holds if and only if the count is within the limit and no ranked deadline passes between its instant and a second, less one microsecond, after the list’s |
| `SlaRanking.ElevenAgainstTen` | backend/app/repositories/analytics_repository.py:519-544 | with eleven tickets overdue the count is 11 and the list of the default limit shows 10, at one and the same instant |
| `SlaRanking.HalfASecondAhead` | backend/scripts/phase_s_walkthrough.py:711-716 | half a second before the only deadline the count is 0 and one risk shows no seconds left |
| `SlaRanking.CachedCountIsBehind` | backend/app/services/analytics_service.py:410-437 | a count taken before the only deadline is 0 while the list shows the breach |
| `SlaSweep.EarliestIsTheMinimum` | backend/app/services/sla_service.py:283-313 | the recorded time of an alert is the earliest entry that speaks for its timer, wherever it stands; an entry whose timer cannot be read speaks for both |
| `SlaSweep.IndexAlerts` | backend/app/services/sla_service.py:283-313 | one pass over the events answers, for every ticket, timer and kind, whether and when it was said |
| `SlaSweep.Tenant.SweepBatch` | backend/app/workers/sla_tasks.py:195-243 | a pass that reads the guard once does what reading it afresh for every ticket would do |
| `SlaSweep.Tenant.Sweep` | backend/app/workers/sla_tasks.py:160-267 | so does a whole sweep over all priorities |
| `SlaSweep.SweepSays` | backend/app/workers/sla_tasks.py:160-243 | a sweep adds, stamped, the alert of each timer of its tickets whose state calls for one and was not told before, and nothing else |
| `SlaSweep.CandidatesAreOldEnough` | backend/app/repositories/sla_repository.py:81-123 | the candidates are exactly the open tickets under an active policy that have used up the warning share of their response target |
| `SlaSweep.SecondSweepAddsNothing` | README.md:851-862 | a second sweep over any of the same tickets with nothing changed adds nothing |
| `SlaSweep.LeftOutExactlyWhenTerminal` | backend/app/repositories/sla_repository.py:104-123 | of the tickets with an alert due and not yet given, the candidate query leaves out exactly the resolved and closed ones |
| `SlaRuns.AlertsAreOnce` | backend/app/services/sla_service.py:330-377 | in every run of replies, resolutions, reopenings, edits and sweeps, a ticket has at most one entry of ours for each timer and state |
| `SlaRuns.AtMostFourAlerts` | README.md:851-856 | so a ticket earns at most four alerts, however long it is left |
| `SlaRuns.ReportedIsTheEntry` | backend/app/services/sla_service.py:380-402 | the reported time of a warning or breach is that of the entry the guard reads, from the sweep that wrote it on |
| `SlaRuns.NoWarningAfterBreach` | backend/app/services/sla_service.py:345-351 | while no deadline moves, no warning follows a breach of the same timer, through any stops, reopenings and sweeps |
| `SlaRuns.WarningsStayInOrderExactly` | backend/app/services/sla_service.py:345-351 | from any state, whatever edits led to it, that stays so in every run without further edits if and only if each timer told as breached can no longer warn: already warned, without a policy, past its deadline, or a stopped response |
| `SlaRuns.ExtendedRun` | backend/app/services/sla_service.py:473-532 | a policy edit between two sweeps does let a warning follow a breach: a concrete run |
| `SlaRuns.StatusesStay` | backend/app/services/ticket_service.py:616-634 | in every run a ticket has its resolution time exactly while it is resolved or closed |
| `SlaRuns.StepsStamp` | backend/app/services/ticket_service.py:616-634 | which step stops which timer and when it is possible: the first staff reply, the move to resolved, and the reopening |
| `SlaRuns.TimesStand` | backend/app/services/ticket_service.py:626-634 | in every run the creation and the first reply stay where they are, and so does the resolution until the ticket is reopened: closing does not move it |
| `SlaRuns.DoneIsSilent` | backend/app/repositories/sla_repository.py:98-123 | nothing is recorded about a resolved or closed ticket in any run that does not reopen it |
| `SlaRuns.BreachIsToldExactlyWhenOpen` | backend/app/services/sla_service.py:349-354 | a breach nobody was told of is told in some run without a reopening, and by the next sweep in particular, if and only if the ticket is open: a late reply is, a late resolution is not |
| `SlaRuns.LateResolutionIsMissed` | backend/app/services/sla_service.py:349-354 | a ticket resolved a minute late between two sweeps: a concrete run after which the breach is due, untold, and no candidate |
| `Sessions.Store.Login` | backend/app/services/auth_service.py:249-260 | a login adds one live token of a new session and changes nothing else |
| `Sessions.Store.Refresh` | backend/app/services/auth_service.py:268-345 | a token is exchanged if and only if it is known, unused, unexpired and of an active user, for one token of the same session and seven days; in every other case which tokens die, told token by token |
| `Sessions.Store.Logout` | backend/app/services/auth_service.py:348-369 | the presented session ends, no other does, and a second time changes nothing |
| `Sessions.PresentStarts` | backend/app/services/auth_service.py:287-333 | the same of interleaved transactions: what a presented token starts, by its own fields alone |
| `Sessions.CommitEnds` | backend/app/services/auth_service.py:335-343 | and what the commit of an exchange or of a revocation writes |
| `Sessions.RevocationWaits` | backend/app/repositories/refresh_token_repository.py:55-76 | a revocation has to wait exactly for the exchanges of its own user on rows its UPDATE sees |
| `Sessions.OtherRequests` | backend/app/services/auth_service.py:249-260 | and what an interleaved login or logout does |
| `Sessions.ExchangesBeganInTime` | backend/app/services/auth_service.py:308-333 | in every run each exchange under way began with a token that was then unused, unexpired and of an active user |
| `Sessions.ExchangedOnce` | backend/app/services/auth_service.py:287-289 | however transactions interleave, a token is exchanged at most once |
| `Sessions.ChainsAreSound` | backend/alembic/versions/20260911_2027_bd8e646eeff8_baseline_schema.py:398-434 | replacements are newer, of the same session, of one token only, and a session has at most one live token |
| `Sessions.ReplayEndsEverySession` | README.md:249-256 | from the moment a replay is presented to the commit of its revocation: in every run in which no login and no exchange of that user commits, whatever else happens, the user has no live token afterwards |
| `Sessions.ReplayIsCompleteExactly` | backend/app/services/auth_service.py:296-304 | asked at the moment the replay is detected: every run in which the user only lets finish what is under way leaves no live token after the revocation, if and only if no exchange of that user holds a row lock then |
| `Sessions.RotationEscapesReplay` | backend/app/services/auth_service.py:296-304 | a rotation already under way when the replay is detected does leave a live token: a concrete run |
| `Sessions.DeadUntilLogin` | README.md:249-256 | a user without a live token has none until the next login |
| `Sessions.LiveAtMostLogins` | README.md:249-256 | from then on the user’s live tokens never exceed the logins since |
| `AiCalls.AnswersAreValidated` | backend/app/ai/claude.py:312-360 | an answer is only ever the validated input of the tool the call named, for both vendors |
| `AiCalls.ValidatedExactly` | backend/app/ai/provider.py:134-174 | a payload is accepted if and only if it is the model already, an object the schema accepts, or a text that parses to one; and as what |
| `AiCalls.OutcomesAreExact` | backend/app/ai/claude.py:304-360 | a reply is an answer exactly when it was not cut short or declined and its first tool call is the one named, with valid input; declined is permanent, everything else unusable output; the same for Groq with its own stops |
| `AiCalls.CountsRide` | backend/app/ai/groq.py:415-476 | the counts a reply was billed ride on whatever it becomes, if and only if the vendor did not decline: a refusal, an exceeded context and a filtered answer are recorded as zero |
| `AiCalls.CallsAreTheLeadingFailures` | backend/app/services/ai_service.py:330-368 | the number of calls is the leading transient failures plus one, or the limit if that is less |
| `AiCalls.Provider.Call` | backend/app/ai/fake.py:84-103 | a call counts itself, records its request and gives the next scripted outcome, or raises past the end |
| `AiCalls.Run` | backend/app/services/ai_service.py:287-428 | one ledger row for each call that ends in an answer or an AI error, in order and with its counts; the value of the last call if it was an answer; each wait between half and all of a ceiling that doubles, and together between half and all of base * (2^(calls-1) - 1) |
| `AiCalls.OneSuccess` | backend/app/services/ai_service.py:330-420 | only the last row of a run can say it succeeded, and it does exactly when the run returns a value |
| `AiCalls.LedgerIsTheBill` | README.md:1297-1332 | for Claude and for Groq: row by row the ledger holds what the replies were billed, short of the bill if and only if the vendor declined a reply it billed; a call without a reply, or with a body that is not JSON, has zero; only the last call of a run can have had a body |
| `AiCalls.BackoffWithin` | backend/app/services/ai_service.py:166-179 | one wait lies between half and all of its ceiling |
| `Pricing.CostIsNearest` | backend/app/ai/pricing.py:144-161 | the cost is the number of millionths of a dollar nearest the exact price, and of two equally near the larger |
| `Pricing.ChargedAtItsRate` | backend/app/ai/pricing.py:126-161 | a call is charged by its model’s published rate for each direction, and a model without one is an error |
| `Pricing.MoreCostsNoLess` | backend/app/ai/pricing.py:144-161 | monotone in both counts |
| `Pricing.AdditiveExactlyInDollars` | backend/app/ai/pricing.py:95-103 | splitting a call never changes its price if and only if both rates are whole dollars |
| `Pricing.TotalIsClose` | backend/app/ai/pricing.py:58-64 | a ledger of n rows sums to within n half-millionths of the exact total |
| `Pricing.TotalCanBeThatFar` | backend/app/ai/pricing.py:144-161 | and can be that far off |
| `Pricing.ColumnHolds` | backend/app/ai/pricing.py:58-64 | the price fits Numeric(12, 6) exactly under a stated exact price, and then nothing on the way exceeds 28 digits |
| `Pricing.PublishedRatesFit` | backend/app/ai/pricing.py:95-103 | ten billion tokens each way fit at every published rate |
| `EmbeddingOrder.SortedIsStable` | backend/app/ai/openai_embedding.py:218-230 | the entries come out by claimed index, equals in order of arrival, none lost and none twice |
| `EmbeddingOrder.OrderIsUnique` | backend/app/ai/openai_embedding.py:218-230 | only one list has that property |
| `EmbeddingOrder.AlignedExactlyWhenPermuted` | backend/app/ai/openai_embedding.py:212-230 | every entry ends at the position it claims, whatever order they arrived in, if and only if the claims are a permutation of the positions |
| `EmbeddingOrder.ClaimsAreMet` | backend/app/ai/openai_embedding.py:212-230 | when the indices in the reply are the positions, in any order, each embedding stands at its own index |
| `EmbeddingOrder.UnclaimedStaysPut` | backend/app/ai/openai_embedding.py:212-215 | without any claimed index the order of arrival is kept |
| `EmbeddingOrder.EmbeddedExactly` | backend/app/ai/openai_embedding.py:263-296 | there are vectors if and only if the body is JSON, the validation accepts and the count is that of the texts; otherwise the error carries the tokens of a body that could be read |
| `EmbeddingOrder.OneVectorEach` | backend/app/ai/openai_embedding.py:279-296 | one vector for each text, the one that claimed its place, or an error that still carries the tokens |
| `ProviderErrors.VendorsAgree` | backend/app/ai/claude.py:147-164 | the three vendors classify a status alike if and only if no header or code overrules it |
| `ProviderErrors.TablesAre` | backend/app/ai/claude.py:147-164 | the verdict of each vendor on each status and word |
| `ProviderErrors.Translate` | backend/app/ai/claude.py:167-192 | on every chain of causes, cyclic ones included, it ends: transient if and only if the first recognised link is worth retrying by its class, its header or its status, and permanent otherwise |
| `TicketNumbers.LocksCollide` | backend/app/repositories/ticket_repository.py:21-31 | two organizations share a lock exactly when their ids begin with the same eight bytes |
| `TicketNumbers.KeyIsSigned` | backend/app/repositories/ticket_repository.py:21-31 | the key is the first eight bytes, the first weighing most, read as a signed 64-bit number |
| `TicketNumbers.Tickets.Create` | backend/app/repositories/ticket_repository.py:157-181 | the next number is one more than the organization’s tickets, and a rollback leaves no trace |
| `TicketNumbers.CreationGoesThrough` | backend/app/repositories/ticket_repository.py:157-181 | from every state in which nobody holds its lock a creation can go through, and adds one ticket with the next number |
| `TicketNumbers.NumbersHaveNoGap` | README.md:453-465 | however creations interleave, commit or roll back, an organization’s numbers are exactly 1 to their count, each once, in commit order |
| `TicketNumbers.InsertsAreNeverRefused` | backend/alembic/versions/20260911_2027_bd8e646eeff8_baseline_schema.py:583-583 | in every run, the pair a transaction is about to insert, or has inserted and not committed, is on no committed row and in no other open insert: the unique index never refuses one |
| `TicketNumbers.WaitsOnlyForItsLock` | backend/app/repositories/ticket_repository.py:21-31 | a creation waits if and only if a transaction of an organization with the same first eight bytes holds the lock |
| `TicketNumbers.StrangersWait` | backend/app/repositories/ticket_repository.py:21-31 | a concrete run: of two organizations whose ids differ in the last byte only, one waits for the other |
| `Backdate.Demo.Run` | backend/scripts/seed_demo.py:780-849 | every ticket is moved as a whole to its own target, and every message and event by what its ticket moved |
| `Backdate.ShiftChildren` | backend/scripts/seed_demo.py:865-880 | a child moves by its ticket’s delta, and stays if its ticket has none |
| `Backdate.IntervalsAreKept` | backend/scripts/seed_demo.py:819-836 | every difference between two timestamps of a ticket is kept, and absent ones stay absent |
| `Backdate.HistoriesAreKept` | backend/scripts/seed_demo.py:865-880 | so is every difference between two children, and a child is before its ticket afterwards exactly if it was before |
| `Backdate.TargetsAscend` | backend/scripts/seed_demo.py:813-820 | creation times are strictly increasing if and only if there is one ticket or fewer than twice the microseconds of the span |
| `Backdate.TargetsFillTheSpan` | backend/scripts/seed_demo.py:813-820 | the oldest ticket is 45 days back, neighbours are one pace apart, and the paces together are the span, off by half a microsecond for each ticket at most |
| `Backdate.ThirtyTickets` | backend/scripts/seed_demo.py:842-849 | with thirty tickets the newest is a day and a half old |
| `Backdate.TargetsStayInSpan` | backend/scripts/seed_demo.py:813-820 | all of them lie inside the span while the square of the number of tickets is at most twice its microseconds |
| `Backdate.TargetsStayExactly` | backend/scripts/seed_demo.py:813-820 | in general exactly when the rounded step has room for all tickets but one |
| `Backdate.TargetsCanPassNow` | backend/scripts/seed_demo.py:816-820 | beyond that the rounding can put a ticket in the future: a concrete number |
| `Migrations.UpRuns` | backend/alembic/versions/20260911_2027_bd8e646eeff8_baseline_schema.py:45-1063 | from a clean database every statement of the baseline upgrade succeeds and builds exactly the listed tables, indexes and types |
| `Migrations.DowngradeMirrors` | backend/alembic/versions/20260911_2027_bd8e646eeff8_baseline_schema.py:1067-1182 | the statements of the downgrade are those of the upgrade undone, one for one, from the end |
| `Migrations.DownRuns` | backend/alembic/versions/20260911_2027_bd8e646eeff8_baseline_schema.py:1067-1182 | none of them fails: no table is dropped while another refers to it, no index twice |
| `Migrations.TearsDown` | backend/alembic/versions/20260911_2027_bd8e646eeff8_baseline_schema.py:1184-1210 | the thirteen types are all dropped, each once, and none while a table uses it |
| `Migrations.EveryWalkRuns` | backend/alembic/versions/20260916_0941_51815e0bbd16_notification_sla_breached.py:52-65 | every walk up and down the four revisions runs without a failing statement, arrives where its steps lead, and finds the same schema at each, with the `sla_breached` label left over exactly from the last revision until the base; only the extensions outlive the base |
| `Migrations.ExecKeepsIntact` | backend/alembic/versions/20260911_2027_bd8e646eeff8_baseline_schema.py:1067-1182 | the database the walks run on refuses what would leave a reference, an index or a column without its table or type |
| `Migrations.NothingTwice` | backend/alembic/versions/20260916_0941_51815e0bbd16_notification_sla_breached.py:87-98 | and whatever was just done, but for what is asked for with IF NOT EXISTS |
| `Migrations.IfNotExistsIsNeeded` | backend/alembic/versions/20260916_0941_51815e0bbd16_notification_sla_breached.py:87-98 | without IF NOT EXISTS the last upgrade fails exactly where the label is left over |
| `Migrations.DroppingTypesIsNeeded` | backend/alembic/versions/20260911_2027_bd8e646eeff8_baseline_schema.py:1184-1194 | were the types not dropped, the next upgrade would fail on its first table |
| `Email.SendsAreOneAndTheLost` | backend/app/workers/celery_app.py:147-158 | messages sent are at most one plus the crashes between a send and its mark, in every run, if and only if the wait at the worker and the hard time limit together are not above the redelivery window |
| `Email.DefaultsSendOnce` | backend/app/core/config.py:62-90 | the settings that ship, 120 seconds of limit and at most ten minutes of countdown against an hour, are such a configuration |
| `Email.StampedMeansNoMore` | backend/alembic/versions/20260915_1308_a49a5939bf77_notification_emailed_at.py:6-16 | with that room, once the row is stamped nothing more is sent |
| `Email.StampedRowsStaySilent` | backend/app/workers/email_tasks.py:144-153 | with room or without, a delivery that has still to read a stamped row sends nothing |
| `Email.LongTasksSendTwice` | backend/app/workers/email_tasks.py:118-209 | without it two deliveries do send twice, the second after the stamp and neither message lost: a concrete run of every such configuration |
| `Segments.ParagraphBreakIsLongest` | backend/app/services/document_text.py:159-159 | the break found at a place is the longest text from a line break to a line break with only white space between |
| `Segments.SentenceEndIsExact` | backend/app/services/document_text.py:154-156 | the second pattern matches exactly the white space right after a full stop, an exclamation mark or a question mark, all of it |
| `Segments.SplitKeepsInk` | backend/app/services/document_text.py:399-435 | splitting at either pattern loses nothing but white space |
| `Segments.SplitAtFirst` | backend/app/services/document_text.py:399-435 | a text is cut at its first match, and the rest is split in turn; without a match it is one piece |
| `Segments.HardSplit` | backend/app/services/document_text.py:438-454 | for every text the loop returns the pieces that the next two rows describe, the empty ones filtered out |
| `Segments.HardSplitSegments` | backend/app/services/document_text.py:438-454 | its pieces fit a segment, none is empty or padded, and the characters that are not white space are kept in order |
| `Segments.HardSplitCutsAtSpaces` | backend/app/services/document_text.py:441-443 | each piece is followed by white space that reaches past every space of the first 2801 characters; a word is cut only when these hold no space at all, and then after 2800 of them |
| `Segments.SplitSentences` | backend/app/services/document_text.py:419-435 | the loop returns, sentence by sentence, the sentence or its pieces: the segments of `SentenceStaysWhole` |
| `Segments.Segments` | backend/app/services/document_text.py:399-416 | the loop returns, paragraph by paragraph, the paragraph or its sentences’ segments: those of `SegmentsKeepInk` and `CutOnlyWhenTooLarge` |
| `Segments.SegmentsKeepInk` | backend/app/services/document_text.py:399-435 | no segment is too large, empty or padded, and together they hold the document’s characters that are not white space, in order |
| `Segments.ParagraphStaysWhole` | backend/app/services/document_text.py:407-416 | a paragraph that fits is one segment, in its place between those of its neighbours |
| `Segments.SentenceStaysWhole` | backend/app/services/document_text.py:426-435 | so is a sentence that fits, in a paragraph that does not |
| `Segments.CutOnlyWhenTooLarge` | backend/app/services/document_text.py:301-304 | every segment is a whole paragraph; or a whole sentence of a paragraph too large; or a piece, cut at spaces, of a sentence too large |
| `Segments.SegmentedJoined` | backend/app/services/document_text.py:399-416 | lines joined by blank lines are found again: the segments of the text are the lines |
| `Chunker.OverlapTail` | backend/app/services/document_text.py:457-473 | the loop from the end computes the tail |
| `Chunker.TailIsAnEnd` | backend/app/services/document_text.py:457-473 | the tail is an end of the passage it was taken from |
| `Chunker.TailFits` | backend/app/services/document_text.py:457-473 | its estimates sum to no more than the overlap |
| `Chunker.TailIsLongest` | backend/app/services/document_text.py:457-473 | and no longer end of the passage would fit |
| `Chunker.PassagesAreGreedy` | backend/app/services/document_text.py:311-320 | the segments appear in order, each new in one passage only; each passage opens with the tail of the one before, and closes exactly when the next segment does not fit |
| `Chunker.Assemble` | backend/app/services/document_text.py:311-334 | the loop computes those passages, numbered and measured; more than 500 are an error |
| `Chunker.Chunk` | backend/app/services/document_text.py:284-334 | the passages of the document’s segments, numbered from zero, their segments a blank line apart, their size four characters to a token rounded up; an error if and only if there are more than 500 |
| `Chunker.JoinedKeepsInk` | backend/app/services/document_text.py:476-490 | the text of a passage holds its segments’ characters, in order |
| `Chunker.PassagesKeepInk` | backend/app/services/document_text.py:284-320 | cutting a document up loses, moves and invents nothing but white space and the stated repetition |
| `Chunker.PassagesAreBoundedBy` | backend/app/services/document_text.py:284-320 | when no segment has more than m tokens, a passage is within the target or has at most m + 150 tokens |
| `Chunker.TargetHoldsExactly` | backend/app/services/document_text.py:289-299 | every document whose segments have at most m tokens keeps to the target of 800 if and only if m is at most 650; the source allows 700 |
| `Chunker.TargetHoldsExactlyForParagraphs` | backend/app/services/document_text.py:289-299 | the same of documents whose paragraphs, as written, have at most m tokens |
| `Chunker.ChunksAreBounded` | backend/app/services/document_text.py:284-299 | no passage of any document exceeds 850 tokens |
| `Chunker.TargetIsExceeded` | backend/app/services/document_text.py:290-299 | the documented bound of 800 fails: for every m from 651 to 700 a text of a hundred short paragraphs and one of m tokens has a passage of m + 150 |
| `Decimal.ParsePrint` | backend/scripts/phase_x_walkthrough.py:200-219 | printed numbers are read back |

## Left out

- Vendor calls, SMTP, Redis, Celery, MinIO and PostgreSQL themselves: each is an outcome, a map or a
  set of rows that a step may change.
- HTTP routing, cookies, WebSockets, permissions, the frontend and deployment.
- Full-text, trigram and vector search.
- Schema keywords that hold sub-schemas in other places than the seven modelled (`patternProperties`,
  `if`, `dependencies` and their like), and references other than `#/$defs/Name` in the theorem about
  meaning; termination and absence of references are proved for every JSON value.
- Keys of `$defs` escaped with `~` or `%` in a pointer.
- The PDF reader looks for a key by its name from an object's header on, where a full one parses the
  dictionary, and it reads the first page only: there is no other.
- SlaRanking.CountIsTheBreachesExactly: compares count and list over the same rows; tickets that changed
  since a cached count was taken are missing from it as `AnalyticsCache` says.
- Characters outside the basic multilingual plane are not treated apart: texts are sequences of
  characters, and only those the patterns mention matter.
- Deletion of tickets, users and organizations, and the branches that meet a deleted row.
- AnalysisTable.Analyses.Request: models the read and the write as one step; `AnalysisRuns` splits them.
- The cached answer of a summary and the audit and ledger rows of a request: they queue nothing.
- The branch of an analysis for an operation without an implementation: no request writes such a row.
- The task's ending commit, its notification and its announcement.
- A pending row that no delivery ever reaches: nothing in the source sends it again.
- The digest of the parameters: two windows with one digest are one question here.
- The float behind `total_seconds()`: exact for durations under 136 years.
- The batch limit of the sweep and its order: a sweep takes any tickets the candidate query can return.
- Two sweeps of one tenant in overlapping transactions.
- Sessions.ReplayIsCompleteExactly: the UPDATE waits for its row locks together, not one after another.
- The httpx translations of groq.py and openai_embedding.py beyond the status: one branch for each class of
  exception.
- Access tokens, password checks and the hash a token is found by.
- The celery retry schedule of an email and its limit of five; only the longest countdown matters here,
  as time a delivered message waits at its worker.
- The broker of the email queue: it is taken to hand a message out again when it has been out for more
  than the window, and not to restart the window while it waits.
- A send the server accepted and the client saw fail: it counts as a crash after a send.
- AiCalls.Run: latency and the identity columns of a ledger row are not modelled.
- Negative token counts, which the JSON of a vendor could hold.
- Columns, constraints and server defaults of the tables: a table is its references, its enum types
  and the columns added later; the labels an enum type begins with are not listed.
- Extraction, decoding and cleaning of a document's text before it is cut up.
- The order in which PostgreSQL returns rows the queries do not order.

# Verified model of the privacy-request portal

A Dafny 4.11 model of the case-handling engine of a portal for data-subject
requests and of the pure logic around it, with proofs of what that logic is
for. `dafny verify dfyconfig.toml` checks the whole project.

| files | what they model |
|---|---|
| `SlaRules`, `SlaStopwatch`, `SlaStatus`, `SlaMail`, `SlaExact`, `CaseDatabase` | the SLA clock and the status workflow: rules on one case and its clock, laws over every run of them, and the same transactions written as statements over the tables |
| `RoundRobin`, `LoadBalance`, `Assignment`, `AssignmentRuns` | who gets a new case: the three strategies and their fairness, the transaction that applies them, and whole runs of it |
| `Keyset`, `Csv`, `CsvStream` | the export: paging by key over a changing table, printing, and sending over a connection that can fail at any await |
| `Delegation`, `DelegationRuns` | sending a case to an outside group: the statements, and the protocol under every interleaving of requests in flight |
| `SendGuard`, `SendBounds` | the brake on failing mail: its counters, and what an outage costs |
| `Scrub`, `NginxBlock`, `PgHba` | the deployer's text rewrites: a secret scrubber, a block remover, a one-token rewriter |
| `ShellEnv`, `DeployRuns` | the encryption key's way through quoting, sourcing, writing and re-reading over repeated deployments |
| `Groups` | editing a group's members in place under a unique key |
| `Text`, `Wrappers` | shared helpers |

Where the source works by changing things, the model does too: classes hold the
tables, and each method (a transaction, a statement, or a loop of the source)
is proved against a function on values. The laws are then proved about those
functions, over every run, every interleaving or every input. Tables are maps,
queries their meaning, and each database transaction one step
(`server/src/db/db.module.ts:65-93`). Times are whole milliseconds, the
transition table is a parameter, and whether a mail is delivered is any choice
of the environment. Some definitions take a function (`look`, `tidy`) that the
service fixes (`Look`, `Tidy`); their lemmas hold for every such function.

## Where the code and its words part

- An extension of a paused, overdue case can land after the pause began and not
  in the future. Resuming then leaves the case overdue with time remaining
  (`server/src/cases/sla.service.ts:343-369`). `SlaStatus.HazardIsExact` says
  exactly when.
- `server/src/cases/workflow.service.ts:160-169` restarts a clock without
  clearing `pausedAt`; the model keeps that.
- In a zone without a configuration row, round-robin is the default but its
  cursor is an UPDATE that matches nothing, so every case goes to the same
  member (`RoundRobin.UnstoredCursorStarves`).
- `server/drizzle/0023_case-delegation.sql:49-51` says an action becomes
  impossible the moment its stage is past. An upload already past its check
  still lands (`DelegationRuns.LateUploadIsExact`).
- `server/src/delegation/delegation.service.ts:255` says a page lists nothing once
  its delegation is closed. It goes by the stage it read first, so a page built
  across the close still lists the files (`DelegationRuns.LatePageIsExact`).
- `server/src/email/send-guard.service.ts:72-73` says expired pauses are cleared
  as they are read. They are only ignored; the effect is the same.
- `deploy/dsr_deploy.py:2083-2084` says a fragment is at least half the secret.
  The code rounds half of an odd length down. And a secret that starts with a
  star, or ends with one, or holds three in a row, can be put together again by
  its own replacement; `Scrub.ReplacedExactly` says that only those can.
- The block remover is said to leave no second default server. It can
  (`NginxBlock.CrossingLeavesOne`), and does exactly when some server opener it
  keeps comes to balance, the removed blocks left out of the count, past a line
  that mentions default_server (`NginxBlock.NoneIsLeft`). In a file where no such
  block crosses a plain one that cannot be (`NginxBlock.NestedLeavesNone`).
- `deploy/dsr_deploy.py:4468-4470` says the key is generated exactly once. The
  write empties the file it replaces, so a run that dies inside it, say on a
  full disk, can lose the key: exactly when it had not got past the key's line
  (`DeployRuns.CutWriteIsExact`, `DeployRuns.EmptiedFileLosesTheKey`).

## Model

| member | source | states |
|---|---|---|
| SlaStopwatch.Stopwatch | server/src/cases/sla.service.ts:318-449 | Over every run of sweeps, pauses, resumes, extensions and status changes from a fresh clock, the deadline is the original one plus 1000 ms for each second of pause credited plus the time granted; each completed pause loses less than a second to rounding. |
| SlaStopwatch.NeverBreachesEarly | server/src/cases/sla.service.ts:58-68 | A sweep breaches a clock only once un-paused time exceeds the target plus what was granted, short of it by at most 999 ms a completed pause. |
| SlaStopwatch.AlwaysBreaches | server/src/cases/sla.service.ts:58-74 | A running clock of an open portal case whose un-paused time exceeds target plus grants is breached, and its case overdue, after the next sweep. |
| SlaStopwatch.SweepLeavesNoneWaiting | server/src/cases/sla.service.ts:58-74 | No clock is due for breach right after a sweep at that instant. |
| SlaStopwatch.StepAccounted | server/src/cases/sla.service.ts:334-449 | Every transaction, refused ones included, keeps the account of the deadline exact. |
| SlaStopwatch.OriginKept | server/src/cases/sla.service.ts:318-449 | No transaction changes when a clock started or its original deadline, or creates or drops a clock. |
| SlaStatus.NewRowConsistent | server/src/cases/workflow.service.ts:328-372 | A case opened by intake or appeal starts with one deadline on both rows. |
| SlaStatus.AlwaysConsistent | server/src/cases/workflow.service.ts:130-172 | In every reachable state, for any transition table, the case and its clock carry the same due date, a closed case has a stopped clock, and its late stamp equals (closed after due). |
| SlaStatus.ClosedIsFrozen | server/src/cases/workflow.service.ts:119-128 | A closed row is unchanged by every run of sweeps, extensions, pauses, resumes and status changes, if and only if the table has no usable edge out of closed. |
| SlaStatus.OnlySweepSetsOverdue | server/src/cases/workflow.service.ts:79-82 | The status becomes overdue only through a sweep that found the clock due. |
| SlaStatus.OverdueIsNeverALie | server/src/cases/sla.service.ts:343-369 | In every state reached without a hazardous extension, an overdue case has a due date that is not in the future, now or later. |
| SlaStatus.HazardIsExact | server/src/cases/sla.service.ts:422-441 | An extension is hazardous (of a paused overdue case, landing after the pause began and not in the future) if and only if a later resume can leave the case overdue with time remaining. |
| SlaStatus.LyingTrace | server/src/cases/sla.service.ts:343-369 | Such a run from intake: breach, extend, pause, extend, resume, then overdue with time left. |
| SlaExact.SweepIsExact | server/src/cases/sla.service.ts:58-209 | A swept row told from its fields: breached iff running, past due, open and not imported; a threshold newly marked iff the mail went out, the clock ticks and its share of the time from start to present deadline is over; escalated iff its share is, and the mail did not all fail. |
| SlaExact.ExtendIsExact | server/src/cases/sla.service.ts:321-369 | An extension is granted iff it is at least one unit and at most a year, with a reason and an open case; both deadlines then move by its milliseconds, a breached clock runs, and overdue gives way only to a future deadline. |
| SlaExact.AcceptedExactly | server/src/cases/workflow.service.ts:79-128 | A change of status is accepted iff it is complete, current, to an active status other than overdue, and an edge of the table. |
| SlaExact.MovesAreLegal | server/src/cases/workflow.service.ts:119-128 | Over any run, every move of the status is an edge of the table to an active status, a sweep that found the clock past due, or an extension that gave an overdue case a future deadline. |
| SlaMail.ToFireExact | server/src/cases/sla.service.ts:108-116 | A reminder round is exactly the thresholds reached and not fired yet. |
| SlaMail.FiredIsTheRounds | server/src/cases/sla.service.ts:127-133 | Over any run the fired list is its start followed by the delivered rounds, in order, and nothing else. |
| SlaMail.OneRoundPerThreshold | server/src/cases/sla.service.ts:86-133 | Over its whole life a clock has at most one delivered round for each threshold of any policy; no threshold is in two rounds. |
| SlaMail.FiredNoDuplicatesExact | server/src/cases/sla.service.ts:114-132 | The fired list stays free of duplicates under every sweep if and only if the policy's own list has none. |
| SlaMail.OneEscalationPerExtension | server/src/cases/sla.service.ts:149-209 | Over any run a clock escalates at most once, and once more for each extension granted. |
| SlaMail.FailedMailIsNotMarked | server/src/cases/sla.service.ts:121-128 | A sweep whose mail all failed leaves exactly what its breach pass left. |
| SlaMail.SweepAgainIsNoOp | server/src/cases/sla.service.ts:47-139 | A fully delivered sweep repeated at the same instant changes nothing. |
| CaseDatabase.Tables.BreachPass | server/src/cases/sla.service.ts:58-85 | Over all rows: each is as the breach rule says, and the count is the number of rows due. |
| CaseDatabase.Tables.RemindPass | server/src/cases/sla.service.ts:87-133 | Over all rows: each clock's fired list is as the reminder rule says, and the count is the number of delivered rounds. |
| CaseDatabase.Tables.EscalatePass | server/src/cases/sla.service.ts:149-209 | Over all rows: each clock's escalation mark is as the rule says, and the count is the number of mails delivered. |
| CaseDatabase.Tables.RecomputeAll | server/src/cases/sla.service.ts:42-140 | The sweep: with the lock taken nothing moves and the counts are zero; otherwise every row is swept as its own fields say, and the counts are the clocks past due, the cases with a threshold newly reached and delivered, and the escalations reached and delivered. |
| CaseDatabase.Tables.ExtendCase | server/src/cases/sla.service.ts:318-398 | Granted iff the duration, the reason and the case allow it; one row moves by the milliseconds granted and no other. |
| CaseDatabase.Tables.PauseCase | server/src/cases/sla.service.ts:401-420 | Paused iff the clock runs and its policy allows it; otherwise nothing changes. |
| CaseDatabase.Tables.ResumeCase | server/src/cases/sla.service.ts:422-449 | Resumed iff the clock is paused; both due dates move by the whole seconds it was. |
| CaseDatabase.Tables.ChangeCaseStatus | server/src/cases/workflow.service.ts:76-174 | Accepted iff the request is complete, current and an edge of the table to an active status; the case is then stamped, its clock stopped or restarted, and no other row moves. |
| CaseDatabase.Tables.NextRef | server/src/cases/workflow.service.ts:319-326 | The next number of the zone and year asked for, from 1, which nobody holds; no other counter moves. |
| CaseDatabase.Tables.OpenAppeal | server/src/cases/workflow.service.ts:298-395 | An appeal is a new case with its own unused reference, clock and deadline; the case appealed keeps its status, deadlines and stamps; refused exactly when not appealable. |
| RoundRobin.Balance | server/src/cases/assignment.service.ts:103-113 | For two members who stay candidates while the set changes at will, the exact difference of their picks over any stretch, from who is next in the ring at its two ends. |
| RoundRobin.RoundRobinFair | server/src/cases/assignment.service.ts:103-113 | Over any stretch two such members are picked equally often, give or take one. |
| RoundRobin.NoStarvation | server/src/cases/assignment.service.ts:103-113 | Between two picks of one member every other member who was a candidate throughout is picked, whoever else joins or leaves, the picked member included. |
| RoundRobin.OncePerTurn | server/src/cases/assignment.service.ts:103-113 | Exactly once, between consecutive picks of a member who stays a candidate too. |
| RoundRobin.RoundRobinPermutes | server/src/cases/assignment.service.ts:103-113 | While the set stays one of n members, n consecutive picks are each member once. |
| RoundRobin.UnstoredCursorStarves | server/src/cases/assignment.service.ts:106-112 | In a zone without a configuration row the cursor is stored nowhere: the least id takes every case and the others none. |
| LoadBalance.LeastOpenSpread | server/src/cases/assignment.service.ts:97-98 | Along any run of least-open picks, ties broken in any way, the spread never exceeds the larger of its start and one. |
| LoadBalance.WeightedStaysProportionate | server/src/cases/assignment.service.ts:99-102 | From a proportionate start, along any run of weighted picks, (open_i - 1) * w_j <= open_j * w_i for all i and j. |
| LoadBalance.WeightedFair | server/src/cases/assignment.service.ts:99-102 | Hence (open_i - 1) * W <= Total * w_i for every member after every pick. |
| Assignment.HeadIsBest | server/src/cases/assignment.service.ts:97-102 | The head of the stable sort is a member than whom nobody has fewer (or proportionately fewer) open cases. |
| Assignment.CandidatesExactly | server/src/cases/assignment.service.ts:228-240 | Who can take work: active approvers and managers of the zone who are not out of office. |
| Assignment.OpenCasesCount | server/src/cases/assignment.service.ts:231-232 | A case counts for its owner until it is closed, and nothing else does. |
| Assignment.ChoiceIsRight | server/src/cases/assignment.service.ts:96-108 | Told from users and cases: least-open picks the first with the fewest open cases, weighted the first with the fewest in proportion to capacity (at least one), round-robin the next id round the ring. |
| Assignment.NextInRingFollows | server/src/cases/assignment.service.ts:105-108 | Sort, search and wrap-around together pick the next id round the ring from the stored cursor: one pick of the fairness model. |
| Assignment.OneMoreForTheChosen | server/src/cases/assignment.service.ts:115-125 | Giving an unowned case to a member adds one to that member's open cases and to nobody else's. |
| Assignment.AssignmentIsAGreedyStep | server/src/cases/assignment.service.ts:97-125 | One load-based assignment is one greedy step of the fairness model. |
| AssignmentRuns.RunIsPicks | server/src/cases/assignment.service.ts:73-135 | In a zone that rotates, the cases given out over any run of assignments, while users and cases change at will, go round the ring from the stored cursor: the round-robin laws hold of every such run. |
| AssignmentRuns.NobodyStarves | server/src/cases/assignment.service.ts:103-113 | So between two cases for one member everybody who could be given one throughout is given one. |
| AssignmentRuns.RunWithoutRow | server/src/cases/assignment.service.ts:106-112 | In a zone without a row every case of every run is given out as if from no cursor. |
| AssignmentRuns.RunIsGreedy | server/src/cases/assignment.service.ts:73-135 | In a zone that goes by load, any run of assignments in all zones, with the same members able to take its cases, is a greedy run of the fairness model and leaves that run's loads. |
| AssignmentRuns.SharesAreFair | server/src/cases/assignment.service.ts:97-102 | Weighted assignment keeps each member's open cases, less one, within the share its capacity (at least one) has in the whole, from a proportionate start. |
| AssignmentRuns.SpreadIsKept | server/src/cases/assignment.service.ts:97-102 | Least-open assignment never takes two members' open cases further apart than they were, or one. |
| Assignment.AssignmentService.TakeTurn | server/src/cases/assignment.service.ts:96-113 | The right choice of the candidates for the strategy; round-robin stores it as the zone's cursor when the zone has a row. |
| Assignment.AssignmentService.AutoAssign | server/src/cases/assignment.service.ts:73-135 | Somebody gets the case iff it is there, unowned, and the zone has a strategy other than manual and a candidate; it is the right choice of the candidates; the case is then theirs and open, with the cursor moved only by round-robin; otherwise a new case is queued for the zone. |
| Assignment.AssignmentService.OpenUnassigned | server/src/cases/assignment.service.ts:47-71 | Only a new case is moved to the zone's queue. |
| Keyset.PageIsExact | server/src/cases/keyset.ts:34-50 | The query returns the greatest rows past the cursor, in strictly descending order of the pair, leaving out only rows past a full page's end. |
| Keyset.BatchSize | server/src/cases/cases.service.ts:308 | Whole, the request cut to a whole number, and never under 1 or over 5000. |
| Keyset.StreamExportRows | server/src/cases/cases.service.ts:302-349 | The loop ends, and its batches are what a paged export yields when its i-th query sees the i-th state of the table. |
| Keyset.StrictlyDescending | server/src/cases/cases.service.ts:316-345 | Whatever changes between batches, the rows sent are newest first, greatest id first of one instant, and none twice. |
| Keyset.OnlyRealRows | server/src/cases/cases.service.ts:316-325 | Every row sent was in the table when its batch was read. |
| Keyset.NothingMissed | server/src/cases/cases.service.ts:316-346 | A row present in every state the export reads is sent exactly once, ties on created_at included. |
| Keyset.StaticExportIsTheSort | server/src/cases/cases.service.ts:302-349 | On a table nobody changes, the batches end to end are the sorted table. |
| Keyset.RoundedCursorDrops | server/src/cases/keyset.ts:51-70 | A cursor rounded to the millisecond drops exactly the rows between the true cursor and the rounded one. |
| Csv.SafeCellsAreInert | server/src/cases/csv.ts:19-31 | No cell's text starts with a formula character or is a bare run of twelve or more digits. |
| Csv.CarriedExactly | server/src/cases/csv.ts:19-31 | A value is carried unchanged exactly when it was neither; otherwise with one quote in front. |
| Csv.CarriedInCharacters | server/src/cases/csv.ts:19-32 | A quote goes in front exactly of what starts with =, +, -, @, a tab or a carriage return, and of twelve or more digits alone. |
| Csv.ListText | server/src/cases/csv.ts:36-37 | A list is its items with a semicolon and a space between them. |
| Csv.TextsCollide | server/src/cases/csv.ts:19-31 | Exactly which two values the file cannot tell apart. |
| Csv.CsvRoundTrip | server/src/cases/csv.ts:33-67 | A parser following RFC 4180, section 2, reads a file of at least one column back as its headers and its rows' texts, commas, quotes and line breaks included. |
| Csv.RecordRoundTrip | server/src/cases/csv.ts:58-60 | One printed line, followed by anything, reads back as its cells, and leaves what follows. |
| Csv.SameFileSameTexts | server/src/cases/csv.ts:62-67 | Equal files carry the same number of rows and columns and the same text in every cell. |
| CsvStream.Response.Happen | server/src/cases/csv-stream.ts:131-146 | The listeners keep the first failure, that of the first event that is one; the stream is destroyed exactly when an event destroyed it. |
| CsvStream.Response.WriteChunk | server/src/cases/csv-stream.ts:48-74 | A stream already gone is not written to; otherwise the chunk is accepted once and the wait fails only on a failure event. |
| CsvStream.Response.AbortPartialExport | server/src/cases/csv-stream.ts:93-107 | Writes the marker and destroys the stream, unless it is already gone. |
| CsvStream.ChunksAreTheFile | server/src/cases/csv-stream.ts:147-153 | However the rows are cut into batches, empty ones included, the writes together are the file printed at once. |
| CsvStream.WriteRows | server/src/cases/csv-stream.ts:148-154 | The batch loop fails exactly when a fetch, write or check does, and has written whole batches. |
| CsvStream.StreamCsv | server/src/cases/csv-stream.ts:121-175 | Ended normally if and only if every fetch, write, check and the hook went well, and then the bytes are the whole file and the count exact; otherwise destroyed, with an error, holding whole batches and at most the marker; recorded if and only if the hook ran and succeeded. |
| CsvStream.CleanDownloadOfStaticTable | server/src/cases/cases.service.ts:302-349 | End to end: the file of a cleanly ended export of an unchanged table reads back as the headers and every row once, newest first. |
| CsvStream.AbortedFileReadsAsMarked | server/src/cases/csv-stream.ts:25-28 | A file cut short with the marker reads back as its rows, a blank record and the marker's text. |
| Delegation.Database.InsertDelegation | server/src/delegation/delegation.service.ts:96-113 | The insert succeeds exactly when no delegation of the case is open and the token is new. |
| Delegation.Database.CloseDelegation | server/src/delegation/delegation.service.ts:184-195 | Closes the delegation if it is this case's and open; otherwise changes nothing. |
| Delegation.Database.AcceptDelegation | server/src/delegation/delegation.service.ts:325-331 | Accepts only from sent, storing the member and a copy of the name; otherwise changes nothing. |
| Delegation.Database.DeleteMember | server/drizzle/0024_delegation-member-churn.sql:20-66 | Deleting a member leaves no row referring to it; the name copied when it accepted, and everything else of every row, stays. |
| Delegation.Database.FilesOf | server/src/delegation/delegation.service.ts:271-279 | The filenames stored for a delegation, oldest first. |
| DelegationRuns.ProtocolIsSafe | server/src/delegation/delegation.service.ts:79-114 | Under every interleaving of requests in flight: a case has at most one open delegation, a token one delegation, each delegation exactly one accept if it has an accepter and none otherwise, and every stored file a delegation somebody had accepted. |
| DelegationRuns.AcceptersAreMembers | server/src/delegation/delegation.service.ts:306-331 | In every run, whoever accepted a delegation was at some point a member of just its group under just the name it carries, and the member it still refers to is that one. |
| DelegationRuns.OnlyTheLinkActs | server/src/delegation/delegation.service.ts:306-395 | In every run, a request acts on a delegation only after loading that delegation's token, and only as it was loaded for. |
| DelegationRuns.LinkOpensExactly | server/src/delegation/delegation-rules.ts:19-35 | A request starts iff the token is the row's and its stage allows the action: viewing always, accepting when sent, uploading when accepted. |
| DelegationRuns.SendOpensExactly | server/src/delegation/delegation.service.ts:79-95 | A send is started iff the case is with nobody. |
| DelegationRuns.SendExactly | server/src/delegation/delegation.service.ts:96-113 | And gets its row, for its group, iff the case is still with nobody and the token is new. |
| DelegationRuns.ChooseExactly | server/src/delegation/delegation.service.ts:311-315 | A member is taken up iff it is one of the delegation's group, under the name it has then. |
| DelegationRuns.AcceptExactly | server/src/delegation/delegation.service.ts:325-331 | And accepts iff the row is still only sent and the member still there. |
| DelegationRuns.NothingIsUndone | server/src/delegation/delegation-rules.ts:19-35 | Over any stretch of any run a delegation's stage only moves forward, its case, group and token stay, the accepter's name is set once, from sent, and never changes, and its reference can only be cleared. |
| DelegationRuns.StepKeepsInv | server/src/delegation/delegation.service.ts:306-395 | Every statement of every request keeps the whole invariant, snapshots of requests in flight included. |
| DelegationRuns.StepEvolves | server/src/delegation/delegation.service.ts:184-395 | No single statement undoes anything. |
| DelegationRuns.LateUploadIsExact | server/src/delegation/delegation.service.ts:352-395 | An upload lands on a closed delegation if and only if the delegation was closed while the request was in flight. |
| DelegationRuns.LateUploadHappens | server/src/delegation/delegation.service.ts:357-395 | A run in which it does. |
| DelegationRuns.PagesShowOnlyTheirOwn | server/src/delegation/delegation.service.ts:254-279 | In every run a page lists only files that came through its own link, and none if the delegation was closed when the link was loaded. |
| DelegationRuns.LatePageIsExact | server/src/delegation/delegation.service.ts:254-279 | A page loaded open lists exactly the files stored through the link when it is built; so files of a closed delegation are listed if and only if there are some and it was closed between the load and the read. |
| DelegationRuns.LatePageHappens | server/src/delegation/delegation.service.ts:214-238 | A run in which it is. |
| SendGuard.ScopesFor | server/src/email/send-guard.service.ts:61-67 | The provider first, then the trimmed, lower-cased address of every recipient that is not blank, each once, and nothing else. |
| SendGuard.SendGuardService.BlockedScope | server/src/email/send-guard.service.ts:75-95 | The paused scope whose pause ends last, if any is paused. |
| SendGuard.SendGuardService.RecordFailure | server/src/email/send-guard.service.ts:105-137 | The new counters of every scope, and the furthest pause set; pauses that were in order stay so. |
| SendGuard.SendGuardService.RecordSuccess | server/src/email/send-guard.service.ts:140-153 | Every scope touched has no failures in a row and no pause, its total kept; every other scope is as it was. |
| SendGuard.SendGuardService.Send | server/src/email/email.module.ts:144-206 | Throttled iff a scope is resting (1, 2, 4, 8, 16 or 30 minutes from its third and further failures in a row), naming a paused one; otherwise delivered iff the provider accepts, with the outcome recorded against every scope and the furthest pause reported. |
| SendGuard.BackoffTable | server/src/email/send-guard.service.ts:124-127 | The pause in minutes after each failure in a row: none, none, 1, 2, 4, 8, 16, then 30. |
| SendBounds.FailAllTouches | server/src/email/send-guard.service.ts:108-134 | A failed send counts once against each scope it involves and against nothing else. |
| SendBounds.FurthestIsTheLongest | server/src/email/send-guard.service.ts:108-135 | The pause reported is one that was set, and no shorter than any other set. |
| SendBounds.ReportIsTheLongestPause | server/src/email/send-guard.service.ts:107-136 | So what is reported is the pause of a scope that has one after the failure, and none ends later. |
| SendBounds.PauseIsExact | server/src/email/send-guard.service.ts:105-153 | After any sends, every scope has exactly the pause its failures in a row and its last failure give it. |
| SendBounds.PauseDoubles | server/src/email/send-guard.service.ts:124-127 | A failed send adds one to each of its scopes; the third in a row pauses a scope for a minute, each further one for twice as long as the one before, or half an hour if that is less. |
| SendBounds.ThrottledExactly | server/src/email/send-guard.service.ts:75-95 | After any sends, a send is held back iff one of its scopes is resting. |
| SendBounds.PausedIsExact | server/src/email/send-guard.service.ts:20-24 | After any sends, a scope is paused iff its last failure, the third or a later one in a row, is younger than its minutes of rest; so never half an hour after it. |
| SendBounds.CallsAreSpaced | server/src/email/send-guard.service.ts:105-134 | In any stretch without a success for a scope, from any state, its calls are spaced by the sum of the capped backoffs. |
| SendBounds.OutageBound | server/src/email/send-guard.service.ts:98-104 | In such a stretch of length T the provider is called for the scope at most 7 + T / 30 min times. |
| Scrub.Needles | deploy/dsr_deploy.py:2102-2108 | The needles are exactly the values of six or more characters and their fragments of at least eight characters and half (rounded down) the value. |
| Scrub.NeedlesExactly | deploy/dsr_deploy.py:2103-2108 | Of a value of six characters or more, what is blanked is all of it and every stretch of at least eight characters and half of it, rounded down. |
| Scrub.TailIsANeedle | deploy/dsr_deploy.py:2079-2086 | So is the tail that a parse error shows, if it is that large. |
| Scrub.ScrubText | deploy/dsr_deploy.py:2061-2111 | The result is the text with every needle replaced, no shorter one before a longer; with tame needles it holds none of them. |
| Scrub.NoStarsIsTame | deploy/dsr_deploy.py:2103-2108 | If no value holds a star, every needle is tame: no star at either end, no three in a row. |
| Scrub.ScrubbedIsClean | deploy/dsr_deploy.py:2109-2111 | If every needle is tame, no needle, whole value or fragment, occurs anywhere in the result. |
| Scrub.ReplacedExactly | deploy/dsr_deploy.py:2110 | Replacing a needle leaves none of it in any text if and only if the needle is tame. |
| Scrub.ShortValueExactly | deploy/dsr_deploy.py:2103-2111 | Scrubbing a single value of six to eight characters leaves none of it in any text if and only if it is tame. |
| Scrub.ScrubTwice | deploy/dsr_deploy.py:2109-2111 | With tame needles, scrubbing again, whatever order equal lengths are taken in, changes nothing. |
| Scrub.OnlyStarsAdded | deploy/dsr_deploy.py:2109-2111 | Every tame text in the result, star-free text in particular, was in the log. |
| Scrub.WholeValueIsBlanked | deploy/dsr_deploy.py:2071-2072 | Longest first: a value on its own is blanked whole, even if other values lie inside it. |
| Scrub.ShortestFirstLeaks | deploy/dsr_deploy.py:2071-2072 | The other order leaves the tail of such a value readable. |
| NginxBlock.MeasureBlock | deploy/dsr_deploy.py:518-531 | The first line at which a brace has been seen and the count is zero, if there is one. |
| NginxBlock.OpensExactly | deploy/dsr_deploy.py:475-494 | A line that begins with the word server opens a block iff nothing follows it, or a brace not ended by a semicolon. |
| NginxBlock.ServerAloneOpens | deploy/dsr_deploy.py:480-482 | The word alone on its line, however indented, opens one. |
| NginxBlock.RewriteLines | deploy/dsr_deploy.py:512-543 | The loop computes the rewrite, and says whether it changed anything. |
| NginxBlock.NeutraliseDefaultServer | deploy/dsr_deploy.py:497-550 | A marked or unaffected file comes back as it is; otherwise the rewritten lines. |
| NginxBlock.KeepsEverythingElse | deploy/dsr_deploy.py:532-543 | The file is lines and whole balanced default_server blocks; the result is those lines in order, with one comment for each block. |
| NginxBlock.DepthIsKept | deploy/dsr_deploy.py:505-507 | Rewriting lines does not change their net brace depth. |
| NginxBlock.FileIsTheRewrite | deploy/dsr_deploy.py:545-550 | The file as written reads back as the rewritten lines, for every file not edited before. |
| NginxBlock.FileDepthIsKept | deploy/dsr_deploy.py:505-507 | So the net brace depth of every file is kept. |
| NginxBlock.RewriteIsFaithful | deploy/dsr_deploy.py:533-538 | The comment put in, read again, has no braces, opens nothing and does not mention default_server: a second pass sees what the first left. |
| NginxBlock.NoneIsLeft | deploy/dsr_deploy.py:516-543 | The result holds a balanced server block with default_server if and only if some server opener the loop keeps balances, removed blocks left out, past a line that mentions it. |
| NginxBlock.NoneIsLeftInFile | deploy/dsr_deploy.py:497-550 | The same of the file as written: a second pass without the marker check finds a block in it exactly then. |
| NginxBlock.NestedLeavesNone | deploy/dsr_deploy.py:516-543 | It never is when no such block crosses a plain server block. |
| NginxBlock.SecondPassDoesNothing | deploy/dsr_deploy.py:512-543 | Without its marker check the transform is idempotent on exactly the same files. |
| NginxBlock.CrossingLeavesOne | deploy/dsr_deploy.py:522-531 | A five-line file, read as the code reads it, that comes out with one. |
| NginxBlock.SecondRunLeavesAlone | deploy/dsr_deploy.py:509-510 | With the marker check, a second run changes nothing, for every file. |
| PgHba.PrintParse | deploy/dsr_deploy.py:403-411 | Splitting a line into words and spaces loses nothing. |
| PgHba.ParsePrint | deploy/dsr_deploy.py:403-411 | Words and spaces printed read back as the same words and spaces. |
| PgHba.ReplaceField | deploy/dsr_deploy.py:401-411 | Only the word asked for is replaced. |
| PgHba.LookExactly | deploy/dsr_deploy.py:344-382 | What is read off a word: connection type, method, weak method, replication, loopback address before any slash. |
| PgHba.LoopbackIsSeen | deploy/dsr_deploy.py:379-382 | Every listed address is recognised, alone or with any prefix length. |
| PgHba.WeakRuleExactly | deploy/dsr_deploy.py:450-462 | A line is rewritten iff it is a TCP rule, not about replication, for a loopback address, whose first method past the address is weak; and at that word. |
| PgHba.OnlyTheMethodChanges | deploy/dsr_deploy.py:450-465 | A changed line reads back with only its method replaced, every other word, all space and the comment kept; any other line is untouched, and a line is changed exactly when it is a recognised weak rule. |
| PgHba.NoWeakRuleLeft | deploy/dsr_deploy.py:453-464 | No recognised loopback, non-replication TCP rule keeps a weak method, and rewriting the line again changes nothing. |
| PgHba.ScramIsStrong | deploy/dsr_deploy.py:350-354 | scram-sha-256 is a method and not a weak one, so it can take a weak one's place. |
| PgHba.LinesAreSettled | deploy/dsr_deploy.py:448-467 | Rewriting lines leaves none with a weak rule, and is idempotent. |
| PgHba.FileReadsBack | deploy/dsr_deploy.py:466-471 | An edited file reads back as the marker line and the rewritten lines. |
| PgHba.FileIsSettled | deploy/dsr_deploy.py:448-471 | So no line of the file as written holds a recognised weak rule, and rewriting its lines again, without the marker check, changes none. |
| PgHba.RewritePgHba | deploy/dsr_deploy.py:414-471 | A marked or unaffected file comes back as it is; otherwise the marker and the rewritten lines. |
| PgHba.SecondRunLeavesAlone | deploy/dsr_deploy.py:445-446 | With the marker, a second run changes nothing. |
| ShellEnv.QuoteReadsBack | deploy/dsr_deploy.py:1651-1659 | A shell reading a quoted value gets the value, for every string (POSIX.1-2017 Shell Command Language, section 2.2.2). |
| ShellEnv.StagedFileSources | deploy/dsr_deploy.py:1662-1669 | Sourcing the staged file sets every staged key to its value, and an absent one to the empty string. |
| ShellEnv.ParseEnvText | deploy/dsr_deploy.py:143-159 | The loop computes the map in which a later line wins. |
| ShellEnv.ExportReadsTheSame | deploy/dsr_deploy.py:150-151 | A leading export makes no difference. |
| ShellEnv.CommentSetsNothing | deploy/dsr_deploy.py:148-149 | Blank lines and comments set nothing. |
| ShellEnv.QuotesComeOff | deploy/dsr_deploy.py:155-157 | One pair of quotes of either kind comes off a value. |
| ShellEnv.EnvReadsBack | deploy/dsr_deploy.py:143-159 | Each value of a written .env reads back, trimmed and rid of one pair of quotes, whatever the other values. |
| ShellEnv.CutEnvReads | deploy/dsr_deploy.py:143-159 | Of a .env cut short, a key is absent unless its value has begun, and then reads as much of it as was written. |
| DeployRuns.HexKeyIsRefused | deploy/dsr_deploy.py:162-191 | A 64-character hex key is refused, as 48 bytes. |
| DeployRuns.KeyIsValidExactly | deploy/dsr_deploy.py:162-191 | A key is taken iff, trimmed, it is 43 base64 characters and an equals sign. |
| DeployRuns.AssembleEnv | deploy/dsr_deploy.py:4456-4492 | The operator's non-blank values, then new values for exactly the generated keys that are blank. |
| DeployRuns.OperatorWins | deploy/dsr_deploy.py:4481-4485 | Each setting the operator may give is the operator's trimmed value where there is one, and otherwise what is installed. |
| DeployRuns.MailIsSwitched | deploy/dsr_deploy.py:5193-5219 | Mail goes to the console while any of the four credentials is missing, through Graph once none is, unless the operator says otherwise. |
| DeployRuns.InstalledKeyIsKept | deploy/dsr_deploy.py:4474-4491 | No operator file changes an installed, non-blank key. |
| DeployRuns.MissingKeyIsGenerated | deploy/dsr_deploy.py:4487-4491 | Only a box without a key gets the new one. |
| DeployRuns.WrittenKeyReadsBack | deploy/dsr_deploy.py:1253-1281 | The key assembled, staged, sourced, expanded and written reads back from the .env as itself, trimmed and rid of quotes. |
| DeployRuns.OperatorValuesReadBack | deploy/dsr_deploy.py:1268-1280 | The cookie and mail settings read back under their own names, or their fallbacks do. |
| DeployRuns.CredentialsReadBack | deploy/dsr_deploy.py:1268-1280 | So do the four mail credentials. |
| DeployRuns.OwnerPasswordReadsBack | deploy/dsr_deploy.py:1268-1280 | The owner role's password is in the owner's URL. |
| DeployRuns.AppPasswordReadsBack | deploy/dsr_deploy.py:1268-1280 | The application role's password is in the application's URL. |
| DeployRuns.GuardNeverFires | deploy/dsr_deploy.py:5236-5247 | The fingerprint guard never has to act, for any fingerprint function. |
| DeployRuns.Host.RunDeployment | deploy/dsr_deploy.py:5187-5331 | One run leaves the box where the run rule says. |
| DeployRuns.RefusesExactly | deploy/dsr_deploy.py:5236-5252 | A run is refused iff the key it goes by, the installed one or else the new one, is not valid, or another check fails. |
| DeployRuns.RunExactly | deploy/dsr_deploy.py:1476-1486 | Refused or stopped before, it leaves the box; otherwise what was there is backed up and the new file written over it, or its start. |
| DeployRuns.RunKeepsKey | deploy/dsr_deploy.py:5187-5331 | One run, refused, stopped at any step boundary or completed, keeps an installed key. |
| DeployRuns.KeyIsStable | deploy/dsr_deploy.py:4459-4472 | So do any number of runs, with any operator files. |
| DeployRuns.FirstKeyStays | deploy/dsr_deploy.py:4468-4470 | The first completed run on a box without a key fixes it for good. |
| DeployRuns.KeyedBoxExists | deploy/dsr_deploy.py:162-191 | Valid keys, completed runs and boxes that hold a key exist, and a later run on such a box is not refused. |
| DeployRuns.CutWriteIsExact | deploy/dsr_deploy.py:1476-1486 | A run that dies inside the write keeps the key if and only if the write had got past the end of the key's line. |
| DeployRuns.EmptiedFileLosesTheKey | deploy/dsr_deploy.py:1476-1486 | If nothing was written yet, the next completed run installs a new key and backs up the empty file: the first key is in neither. |
| Groups.CleanMembers | server/src/delegation/groups.service.ts:190-205 | The loop computes the clean list, or refuses. |
| Groups.CleanIsClean | server/src/delegation/groups.service.ts:193-203 | The clean list has each non-blank address exactly once, under the name first given with it, and nothing else. |
| Groups.RefusedExactly | server/src/delegation/groups.service.ts:197-199 | It is refused if and only if some non-blank address is not one. |
| Groups.AddressExactly | server/src/delegation/groups.service.ts:10 | An address is a local part, an at-sign, a domain, a dot and two characters or more, without spaces or further at-signs. |
| Groups.AcceptableExactly | server/src/delegation/groups.service.ts:193-200 | The service takes a list iff every trimmed, lower-cased address in it is blank or an address, and not all are blank. |
| Groups.MemberTable.Place | server/src/delegation/groups.service.ts:153-168 | Each rename or insert keeps the unique (group, address) key. |
| Groups.MemberTable.DeleteUnlisted | server/src/delegation/groups.service.ts:169-173 | Deletes exactly the group's rows that are not listed; every delete keeps the unique key. |
| Groups.MemberTable.UpdateMembers | server/src/delegation/groups.service.ts:132-174 | After the update exactly the listed members are in the group under their new names, an address that was there keeps its row and spelling, other groups are untouched, and the unique key holds. |
| Groups.MemberTable.UpdateGroup | server/src/delegation/groups.service.ts:114-174 | From the input as it came: refused, touching nothing, iff a non-blank address is not one or none is given; otherwise the group's addresses are exactly the trimmed, lower-cased ones given, each under the trimmed name first given with it (or itself), whoever stays keeps id and spelling, other groups are untouched, and the unique key and the index hold. |
| Groups.CleanedUpdate | server/src/delegation/groups.service.ts:114-174 | Cleaning and then updating does that, for any way of tidying that gives names and lower-case addresses. |
| Groups.AddressesAreTheList | server/src/delegation/groups.service.ts:151-173 | The group's addresses are exactly the list's. |
| Groups.RowStaysExactly | server/src/delegation/groups.service.ts:133-140 | A row keeps its id exactly when its address is listed, and takes the listed name. |
| Groups.UpdateKeepsIndex | server/drizzle/0023_case-delegation.sql:38-39 | The index still holds every row's lower-cased address. |

## Left out

- Audit rows, status history, watcher and assignee mail, logging: records of the steps modelled, without effect on them.
- Escalation of unassigned cases, which the sweep also counts as escalations, and the advisory lock's fairness: one more query of the same form, and a database primitive.
- Manual reassignment, delivery stamps and appeal verdicts: single updates with no law of their own.
- Clocks that disagree: the database's `now()` and the service's `Date.now()` are one clock, and a transaction has one instant.
- Extension values that are not whole numbers, and dates that do not parse: refused by the source before anything modelled here.
- Floating point: elapsed shares are exact reals and load ratios are compared by cross-multiplication.
- UUIDs: user, case and member ids are numbers or tagged numbers; their order stands for the order of the texts, in which `localeCompare` and `>` agree for lower-case UUIDs.
- An export that new rows outrun for ever: the rows that exist while it runs are finitely many.
- SQL text, row-level security and the query planner: a query is its meaning on the table.
- Search filters, row shaping and decryption in the export: a row is its key and its data.
- Rendering rows lazily: a batch's lines are printed when the batch is written, which is unobservable because printing has no effects.
- CsvStream.StreamCsv: a stalled client that never lets the marker flush is the same outcome as one that does, since the five-second timer destroys the stream either way.
- An await that never settles: every wait for a full socket is taken to end with an event, as the listeners promise.
- Storage of uploaded files, the PDF check and token hashing: an upload is its filename, a token its text.
- Message bodies, templates and the masking of links in recorded mail.
- Sends that overlap: the bound on an outage is for sends one after another; concurrent ones may all pass the check before the first failure is recorded.
- A database that fails while an outcome is being recorded.
- Trim and lower-casing beyond ASCII, and line separators other than the newline: `str.splitlines` and `String.trim` know more of both.
- DeployRuns.KeyIsStable: runs that die inside the write itself are excluded, because for them it is false; DeployRuns.CutWriteIsExact says exactly when.
- Base64 with surplus padding, which older Python versions accept, is refused by the model.
- The passwords of the database roles: the written .env holds them only inside URLs, so each run makes new ones; their checks, the mail checks and all other reasons to stop are one choice of the environment.
- Shell words other than those the quoting produces: unquoted active characters make a word unreadable in the model.
- Nginx braces inside comments or strings: counted like any other, as the code does.
- SHA-256, argon2, AES-GCM, HMAC and randomness: parameters, or not part of the model.
- Controllers, front ends, forms, migrations of old data, settings, permission tables, diagnostics and reports: no deep property, or not pure logic.
- The audit-log export in the administration controller: the same paging law on another table.
- Case purge: its order depends on foreign-key actions outside these files.

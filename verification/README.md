# A verified model of the presentation_job engine

`presentation_job` runs a presentation build as a job of phases: it resolves how wide each provider
account may run, resumes blocked and crashed jobs on its own, decides which optional phases to skip,
repairs a run by hand-driven commands, packs context for a model and checks money before a launch. This
project models the parts of that engine whose guarantees span several calls or a whole run, and proves
them. `dafny verify dfyconfig.toml` checks everything.

| file | what it models |
|---|---|
| `Text.dfy` | ASCII `strip`, `lower` and `in`; first match; JSON values; dicts that keep insertion order |
| `Sorting.dfy` | Python's stable sort by a numeric key |
| `CapacityNames.dfy` | provider and plan names, the cap table, client-declared providers |
| `CapacityRecord.dfy` | the declared-capacity record and the transaction that writes it |
| `CapacityIsolation.dfy` | what a declaration about one account does to the entries of the others |
| `CapacityResolve.dfy` | detection and resolution of an account's width |
| `CapacityStore.dfy` | the store's lock and durable write as interleaved steps with kills and power cuts |
| `AutoResumeLedger.dfy`, `AutoResumeRuns.dfy` | the attempt ledger: cap, backoff, refunds, pin sweep, whole runs |
| `AutoResumeDecision.dfy` | the verdict of `evaluate` and `evaluate_crash` |
| `Defers.dfy`, `DefersText.dfy` | gate expressions: text reduction, parse, walk, and the printer they are checked against |
| `Invalidate.dfy` | moving a phase's artifacts aside, all or none |
| `Undeliverable.dfy` | the retry queue with its dead-letter cap |
| `Repin.dfy` | re-pinning a job to a new manifest |
| `CallWalk.dfy`, `RuleMerge.dfy` | the call-graph walk over a checker module and the rule merge |
| `Admission.dfy` | the admission ramp and the effective width |
| `ContextPack.dfy` | whole-file context packing |
| `CreditPreflight.dfy` | the credit verdict |
| `PngScan.dfy` | the PNG chunk scan against its printer |
| `ArcSlides.dfy` | the slide-slot reader |

State that the source updates in place is a class here (`CapacityFile`, `RunState`, `RunDir`, `JobState`,
`Job`, `Walker`, `Ramp`). Each method is proved equal to a function of the old state, and the laws are
lemmas about runs of those functions.

## What the code does not promise

Each of these is shown by an input, or by every input of a stated kind, and next to it stands the condition
under which the promise does hold: an exact one, save for the call walk, where it is sufficient.

- Two processes of which one cannot open the lock file lose an update while both report success, from any
  record (`CapacityStore.LostUpdate`); runs are serialisable exactly when at most one process writes or every
  writer's lock file opens (`CapacityStore.SerialisableExactly`).
- A call whose directory sync fails reports success and can be gone after a power cut
  (`CapacityStore.SkippedSyncLosesWrite`). A write survives every later run exactly when no older directory
  entry can come back (`CapacityStore.DurableExactly`), that is, once a directory sync, its own or a later
  call's, has returned since its rename, or a power cut has left it in place (`CapacityStore.TakenBackExactly`).
- Two spellings of one account in the record collapse on the next write about any other account: the width
  can fall from 8 to 3 (`CapacityResolve.RespellingMovesAnswer`). The entry changes exactly when the later
  spelling says something else (`CapacityIsolation.OtherEntryKept`); the answer, exactly when it says another
  positive number or, with no stronger source for the plan, another plan (`CapacityResolve.AnswerKeptExactly`).
- Upgrading a flat record that carries a `providers` object brings rows to life that no reader saw before: a
  parked account gets a width (`CapacityResolve.UpgradeRevivesHiddenEntries`), exactly as
  `CapacityIsolation.UpgradeKept` says.
- The pin sweep can give back attempts whose engines did start, and a fourth engine starts the same day
  (`AutoResumeRuns.SweepCanForgetStarts`); it takes a charge back exactly when some counted row carries the
  current pin (`AutoResumeRuns.SweepKeepsCharges`).
- A decision is taken on microseconds and its row is stamped in whole seconds, so four stamps fit in 24 h with
  both ends included (`AutoResumeRuns.FourInClosedDay`). With one end excluded three is the most; with both, the
  fourth is let in exactly as `AutoResumeLedger.ClosedKeptExactly` says, and in no run whose polls decide no
  later than their own stamps (`AutoResumeRuns.RunClosed`, `AutoResumeRuns.ThreeStartsClosed`).
- A ledger value that is not a list never closes the cap (`AutoResumeRuns.MalformedLedgerNeverStops`): a record
  reports success and writes nothing exactly then (`AutoResumeRuns.RecordAddsExactly`).
- A park about a missing credential, which only the team can clear, resumes on its own: the known-plan check
  asks for any configuration marker (`AutoResumeDecision.MissingKeyResumes`). It does exactly when the provider
  the reason names has a locked plan tier and the other gates and the bounds allow it
  (`AutoResumeDecision.CredentialParkResumesOnKnownPlan`).
- An artifact that a phase lists twice makes every invalidation of that phase roll back
  (`Invalidate.RepeatedArtifact`, and the last clause of `Invalidate.RunDir.InvalidatePhase`).
- A phase id that returns to the manifest keeps its obsolete row (`Repin.ReturnedIdStaysObsolete`,
  `Repin.RowStatusExactly`).
- A function first walked without an argument is not walked again with it, so a table row can be missed
  (`CallWalk.LaterArgumentsIgnored`); it cannot when every function that looks a table up by a parameter is
  reached with one value of it (`CallWalk.WalkIsReachability`), or none does (`CallWalk.LiteralWalkIsReachability`).
- A configured start scale below 1/4 is raised by a demotion (`Admission.DemotionRaises`).
- A file that two required patterns name is counted twice (`ContextPack.OverlapCountsTwice`,
  `ContextPack.OverlapExactly`).
- One required brief withholds the protected pattern for all briefs, so another brief is missing without a row
  (`ContextPack.SecondBriefMissing`, `ContextPack.RowsExactly`).
- The minimum budget is granted even when the model has less room (`ContextPack.SmallModelOverfilled`,
  `ContextPack.BudgetFits`).

## Model

| member | source | states |
|---|---|---|
| CapacityNames.RowsExactly | presentation_job/capacity.py:277-287 | the table has these four rows, each what the account limit leaves beside the default reserve |
| CapacityNames.TokenExactly | presentation_job/capacity.py:1282-1292 | a name becomes its stripped text in lower case with a dash for each underscore and blank; only a blank one becomes nothing |
| Text.LowerExactly | presentation_job/capacity.py:1291 | lower case has the letter of the same place in the alphabet for each capital, and every other character as it was |
| CapacityNames.ProviderExactly | presentation_job/capacity.py:1295-1431 | which account a name stands for: one the table knows, by its spellings or how it begins, else itself exactly when a client named it and it is not the local Ollama |
| CapacityNames.NormalizeIdempotent | presentation_job/capacity.py:1412-1431 | normalising twice is normalising once, and a name that normalises is a table provider or a client-declared one, never empty |
| CapacityNames.DeclaredAvoidsTable | presentation_job/capacity.py:1343-1409 | a client declaration never names a provider that has a table row or the aggregator |
| CapacityNames.OllamaPlanExactly | presentation_job/capacity.py:1471-1476 | for Ollama only the digits of a plan text count, wherever they stand |
| CapacityNames.DeepseekPlanExactly | presentation_job/capacity.py:1477-1482 | for DeepSeek only the words in the text count, in any case; pro before flash |
| CapacityNames.OtherPlanExactly | presentation_job/capacity.py:1464-1483 | with no account the digits are looked at first and then the words; no other account has plans |
| CapacityNames.PlanHasRow | presentation_job/capacity.py:1464-1483 | a plan resolves only for a structural provider and only to one of that provider's rows |
| CapacityRecord.BoxEnvOk | presentation_job/capacity.py:1282-1431 | whatever the client's model plan names, the box's normaliser has the properties the isolation and resolution theorems assume |
| CapacityRecord.RecordReads | presentation_job/capacity.py:1594-1620 | a record is read row by row when it says schema 2, or has a providers object and names no provider itself; otherwise it is one flat entry |
| CapacityRecord.RowReads | presentation_job/capacity.py:1601-1611 | a row is read as its own fields, with its key for a provider unless it names one; a row that is no object is not read |
| CapacityRecord.RowsRead | presentation_job/capacity.py:1601-1612 | the rows are read one by one, in order |
| CapacityRecord.ValidatedExactly | presentation_job/capacity.py:1841-1867 | what a call is refused for: an unknown plan, an unknown name, a number below 1, or nothing to write, each if and only if |
| CapacityRecord.CapacityFile.DeclareLocked | presentation_job/capacity.py:1883-1974 | the read-merge-write transaction, step by step, has the outcome of its specification; a stale revision or a bad sub-record leaves the file as it was |
| CapacityRecord.StaleExactly | presentation_job/capacity.py:1905-1916 | a call that expects a revision is refused if and only if the record has another, and one that expects none never is |
| CapacityRecord.StaleOtherwise | presentation_job/capacity.py:1904-1905 | a revision that is no number is compared as it is, and True and False as 1 and 0 |
| CapacityRecord.StaleWithoutRevision | presentation_job/capacity.py:1905-1966 | over a record without a revision every call that expects one is refused, and the first write makes it 1 |
| CapacityRecord.TextRevision | presentation_job/capacity.py:1963-1964 | a revision kept as a text counts on from the number it spells, with or without a sign, between any blanks |
| CapacityRecord.NoTextRevision | presentation_job/capacity.py:1963-1966 | a text that spells no number starts again at 1 |
| CapacityRecord.PlainRevision | presentation_job/capacity.py:1963-1966 | any other value counts from 0, but True from 1 |
| CapacityRecord.BadSubRecordExactly | presentation_job/capacity.py:1943 | the call fails exactly when what is there about its account is neither an object nor an empty value |
| CapacityRecord.RootKept | presentation_job/capacity.py:1927-1974 | a write keeps every root field it does not own, marks schema 2, and raises an integer revision by exactly one |
| CapacityRecord.AmendKeeps | presentation_job/capacity.py:1943-1959 | a plan write changes neither max_concurrent nor reserve nor any unknown field, and a throttle write neither plan nor reserve |
| CapacityIsolation.MergeGet | presentation_job/capacity.py:1935-1942 | a lookup after the merge is the last row filed under that key, or what was there before |
| CapacityIsolation.OtherEntryKept | presentation_job/capacity.py:1577-1633 | declaring about p leaves the entry a lookup of q finds identical if and only if q's own key does not come first, or what stands there already is the last sub-record about q; rows that are no objects are allowed |
| CapacityIsolation.OthersIdentical | presentation_job/capacity.py:1883-1974 | with canonical keys every other sub-record stays identical and p's own fields change only as the call says |
| CapacityIsolation.UpgradeKept | presentation_job/capacity.py:1577-1620 | the upgrade of any flat record: another account has an entry afterwards exactly when the record named it or a row about it was hidden in the providers object, and the record says the same of it exactly when no row was hidden, or it named the account and that account's own key comes first or the first hidden row says the same |
| CapacityIsolation.WriteSays | presentation_job/capacity.py:1883-1974 | for any record, what it will say about another account after a declaration, read off the record before it |
| CapacityResolve.OverrideBounded | presentation_job/capacity.py:1673-1800 | every declared answer respects all bounds, and it parks exactly for a structural provider with no resolved plan |
| CapacityResolve.OverrideAttains | presentation_job/capacity.py:1673-1800 | the answer is one of its bounds, never lower, and unbounded exactly for a no-cap provider with no declared number |
| CapacityResolve.NoCapExactly | presentation_job/capacity.py:1434-1450 | a recognised account has no cap of its own exactly when it is not on the table |
| CapacityResolve.DeclaredExactly | presentation_job/capacity.py:1720-1723 | the declared number of an answer is the integer from 1 up in the account's own entry, and there is none otherwise |
| CapacityResolve.NeverUpward | presentation_job/capacity.py:2239-2440 | for every record, route, answer and model: parked exactly when the account is structural and no source names its plan, unbounded only for a no-cap provider without a declared number, unidentified at most 3, structural never above its row |
| CapacityResolve.SlugDecides | presentation_job/capacity.py:1486-1501 | whatever the record, the route and the answers say, a DeepSeek model whose name contains pro is on v4-pro and at most 500, and one that contains flash and not pro on v4-flash and at most 2500 |
| CapacityResolve.PlanPrecedence | presentation_job/capacity.py:2350-2375 | when the slug is silent the plan is that of a route to the same account, else the recognised locked answer, else the record |
| CapacityResolve.RouteAnswers | presentation_job/capacity.py:2308-2316 | without a question the answer is that about the account of the detected route |
| CapacityResolve.FirstEntryAnswers | presentation_job/capacity.py:2317-2327 | with no route it is that about the first account the declaration names |
| CapacityResolve.NothingRecognised | presentation_job/capacity.py:2338-2391 | when nothing is recognised it is the conservative three, or less if the first entry declares less |
| CapacityResolve.UnknownNameAnswered | presentation_job/capacity.py:2345-2357 | a name that is not recognised is answered with the conservative three |
| CapacityResolve.UnreadableFails | presentation_job/capacity.py:2269-2280 | a declaration that cannot be read, and nothing else, makes the answer a failure with no width |
| CapacityResolve.DetectReadsOwnEntry | presentation_job/capacity.py:2298-2440 | an answer about a named account depends on the record only through that account's plan and declared number |
| CapacityResolve.AnswerKeptExactly | presentation_job/capacity.py:2358-2400 | the answer about q survives a declaration about p if and only if the positive number, and the plan unless a stronger source names it, are what the record said |
| CapacityResolve.DetectIsolated | presentation_job/capacity.py:2263-2440 | declaring about p never changes the answer about q: no file, an empty record, a flat record that names anybody or nobody, schema 2 with or without a providers object, as long as no row about q collapses or comes out of hiding |
| CapacityResolve.UpgradeRevivesHiddenEntries | presentation_job/capacity.py:1594-1620 | an upgrade after which an account nobody declared about answers 8 instead of parked |
| CapacityResolve.RespellingMovesAnswer | presentation_job/capacity.py:1937-1942 | a record with two spellings of one account whose answer falls from 8 to 3 after a declaration about another account |
| CapacityResolve.CapacityWithinLimits | presentation_job/capacity.py:2678-2784 | a resolved width is at least 1, never above the account limit or a declared number for any reserve override, and within the table row unless the operator lowers the reserve |
| CapacityResolve.CapacityIsLargest | presentation_job/capacity.py:2678-2784 | on an account with a limit the resolved width is the largest that keeps the reserve free, is at least one and respects the declared number; any other answer stays as it is |
| CapacityStore.OneInside | presentation_job/capacity.py:418-484 | never two threads inside the store, over threads and processes |
| CapacityStore.ReplaceKeeps | presentation_job/capacity.py:487-521 | the rename publishes exactly the next sequential record, because what its thread read is still what the file says |
| CapacityStore.Serialisable | presentation_job/capacity.py:418-521 | every interleaving with kills and power cuts ends in the record the logged calls give one at a time, each outcome is the sequential one, the file is always a whole synced image, and the flock is held exactly by the thread inside or about to unlock |
| CapacityStore.SerialisableExactly | presentation_job/capacity.py:450-484 | every run of a set of writers is serialisable if and only if at most one process writes or no writer skips the lock file |
| CapacityStore.RevisionCounts | presentation_job/capacity.py:1963-1973 | over the calls of a sequential log an integer revision equals the start plus the number of successful writes, and a refused call changes nothing |
| CapacityStore.RunRevision | presentation_job/capacity.py:1963-1973 | the revision in the file after any interleaved run with crashes is the start plus the number of writes made |
| CapacityStore.RunStale | presentation_job/capacity.py:1905-1916 | over any interleaved run with crashes a call that expects revision k is refused exactly when the start and the writes before it do not add up to k, and of two writes that expected a revision the later expected a higher one |
| CapacityStore.DurableExactly | presentation_job/capacity.py:501-512 | calls in the log survive every later run, with kills and power cuts anywhere, if and only if no directory entry a power cut may bring back is older than they are |
| CapacityStore.TakenBackExactly | presentation_job/capacity.py:497-512 | after any run and any later events that left the write in place, a write survives every continuation if and only if since its rename a directory sync has returned, its own or a later call's, or a power cut has left it there |
| CapacityStore.SyncedSurvives | presentation_job/capacity.py:501-512 | once the directory sync of a write returns, that write and every call decided before it, refusals included, survive every later run |
| CapacityStore.SkippedSyncLosesWrite | presentation_job/capacity.py:503-512 | the shortest loss: one call alone reports success without its directory sync, and a power cut brings the old record back |
| CapacityStore.NeverStuck | presentation_job/capacity.py:432-443 | no deadlock, nesting included: in every reachable state a thread that is not idle can go on, or the holder of the flock can |
| CapacityStore.NestedIsFree | presentation_job/capacity.py:432-484 | a thread that is inside may take the lock again, and one more way in and out changes nothing |
| CapacityStore.FailExactly | presentation_job/capacity.py:487-521 | a call can break off anywhere between its read and its rename, and then file, log and locks are as they were |
| CapacityStore.KillExactly | presentation_job/capacity.py:418-484 | killing a process takes its threads and locks and leaves everything else |
| CapacityStore.PowerCutExactly | presentation_job/capacity.py:497-512 | a power cut takes every thread and lock and leaves one of the directory entries that may be on disk |
| CapacityStore.LostUpdate | presentation_job/capacity.py:450-457 | from any record, two processes of which one cannot open the lock file: both calls report success, and in neither order do they have those outcomes one at a time |
| AutoResumeLedger.RunState.RecordAttempt | presentation_job/auto_resume.py:1574-1625 | one row is appended exactly when the locked merge lands and the ledger is a list |
| AutoResumeLedger.RecordedRow | presentation_job/auto_resume.py:1605-1625 | the new row comes last, is this writer's, not refunded, and carries the run's pin unless that is empty |
| AutoResumeLedger.RunState.RefundLast | presentation_job/auto_resume.py:1628-1682 | the newest row of the same kind that this writer made is marked refunded, and nothing else |
| AutoResumeLedger.RefundExactly | presentation_job/auto_resume.py:1649-1682 | a refund marks the newest un-refunded row of this writer that is a crash row exactly when the refund is of a crash, in the unified ledger or, for a crash that has none there, in the old one, and changes no other row |
| AutoResumeLedger.OtherKindKept | presentation_job/auto_resume.py:1660-1666 | a refund never changes how many live rows of the other kind there are |
| AutoResumeLedger.RunState.SweepPins | presentation_job/auto_resume.py:962-987 | on a provable mismatch that nothing can cure, exactly the counted rows under the current pin are refunded |
| AutoResumeLedger.SweptExactly | presentation_job/auto_resume.py:970-987 | after a sweep a row is refunded if and only if it was, or it is within 24 h and carries the pin the run has now; nothing else changes, so a charge under another pin survives |
| AutoResumeLedger.SweepKeepsKinds | presentation_job/auto_resume.py:962-987 | a sweep adds and loses no row, and a ledger value that is not a list stays as it is |
| AutoResumeLedger.RunState.Spend | presentation_job/auto_resume.py:509-550 | the count and the latest stamp of the unified stream over both ledgers |
| AutoResumeLedger.RunState.Tick | presentation_job/auto_resume.py:2040-2116 | a dispatch happens only when the gates and the bounds allow it and the record landed first |
| AutoResumeLedger.MarkedSafe | presentation_job/auto_resume.py:1649-1680 | refunding rows never breaks the spacing or the cap |
| AutoResumeLedger.AttemptSafe | presentation_job/auto_resume.py:1342-1388 | an attempt the cap and the backoff ladder allow, decided on microseconds and stamped in whole seconds, keeps any 24 h, end excluded, at three rows, any two 10 minutes apart and any three spanning 40 |
| AutoResumeLedger.ClosedDayExactly | presentation_job/auto_resume.py:509-530 | with both ends included 24 h hold at most four rows, and four exactly when a row stands at the end of 24 h that hold three |
| AutoResumeLedger.ClosedKeptExactly | presentation_job/auto_resume.py:521-530 | an attempt keeps three rows to every closed 24 h if and only if fewer than three live rows stand in the closed 24 h that end at its stamp |
| AutoResumeLedger.WholeSecondDecision | presentation_job/auto_resume.py:521-530 | a decision no later than its own stamp leaves that room |
| AutoResumeRuns.RunSafe | presentation_job/auto_resume.py:1489-1531 | in every run of park and crash polls, refunds, sweeps and re-pins from a safe ledger, those three bounds hold over both ledgers |
| AutoResumeRuns.RunClosed | presentation_job/auto_resume.py:1342-1388 | when every poll decides no later than its own stamp, every run keeps at most three un-refunded rows in any 24 h with both ends included, from a ledger that does |
| AutoResumeRuns.ThreeAllowed | presentation_job/auto_resume.py:1368-1388 | the bounds are tight: attempts at 0, 10 and 40 minutes are all allowed |
| AutoResumeRuns.RefundUndoesRecord | presentation_job/auto_resume.py:1737-1792 | recording and then refunding the same kind marks exactly the new row, so the counted stream and the live stamps are what they were |
| AutoResumeRuns.QuietSweep | presentation_job/auto_resume.py:970-987 | the sweep changes the book if and only if some counted row carries the current pin |
| AutoResumeRuns.SweepKeepsCharges | presentation_job/auto_resume.py:970-987 | the live stamps, on which the bound on engine starts rests, survive the sweep if and only if it does not fire |
| AutoResumeRuns.RowsAreStarts | presentation_job/auto_resume.py:2084-2116 | when refunds follow exactly the attempts that started no engine and the sweep does not fire, the live stamps are those before the run followed by the engine starts, in order |
| AutoResumeRuns.StartsCharged | presentation_job/auto_resume.py:2084-2112 | even when refunds of failed starts are lost, every engine start is still charged |
| AutoResumeRuns.ThreeStarts | presentation_job/auto_resume.py:1356-1372 | in every such run at most three engines start in any 24 h by the stamps of their attempts, end excluded, and at most four with both ends included |
| AutoResumeRuns.ThreeStartsClosed | presentation_job/auto_resume.py:1356-1372 | in such runs, paired as above, at most three engines start in any 24 h with both ends included |
| AutoResumeRuns.FourInClosedDay | presentation_job/auto_resume.py:1574-1584 | a run of four polls whose four stamps lie in one closed 24 h |
| AutoResumeRuns.SweepCanForgetStarts | presentation_job/auto_resume.py:962-968 | a day in which a poll that misses the manifest gives back three real starts and a later one starts a fourth engine |
| AutoResumeRuns.MalformedLedgerNeverStops | presentation_job/auto_resume.py:1605-1625 | with a ledger value that is not a list, n polls start n engines |
| AutoResumeRuns.RecordAddsExactly | presentation_job/auto_resume.py:1605-1615 | a record that lands adds no row exactly when the ledger value is not a list |
| AutoResumeRuns.PollExactly | presentation_job/auto_resume.py:2040-2116 | a poll starts an engine exactly when gates, bounds and record allow it and the launch succeeds, and leaves a row exactly for an attempt that started or was not given back |
| AutoResumeDecision.ResumeExactly | presentation_job/auto_resume.py:1156-1412 | a parked run resumes if and only if every gate, read off the reason text and the locked plan answers, stands open and the cap and the backoff allow it |
| AutoResumeDecision.ClassExactly | presentation_job/heal.py:51-101 | the failure class is that of the first family, owner, provider, missing input, verifier, one of whose markers occurs in the lower-case reason |
| AutoResumeDecision.OwnerNeverResumes | presentation_job/auto_resume.py:1250-1262 | a reason with an owner marker never resumes, whatever else it mentions and whatever the profile, phase, ledger and clock |
| AutoResumeDecision.MarkersDecide | presentation_job/auto_resume.py:1250-1310 | a reason without owner and configuration markers resumes exactly by its other markers, the phase, and what every resume needs |
| AutoResumeDecision.ConfigurationDecides | presentation_job/auto_resume.py:1214-1281 | a configuration park resumes exactly when the plan it asks about is locked with a tier, no owner decides, and a close-time gate judged nothing |
| AutoResumeDecision.AnswerExactly | presentation_job/auto_resume.py:204-235 | only a locked entry of the named provider is an answer: a tier when it has a visible one, a decline when not |
| AutoResumeDecision.VerdictTells | presentation_job/auto_resume.py:1156-1412 | the verdict names the park class of every readable blocked run, counts attempts exactly when only the bounds are left, and gives the first reason against a resume as its code |
| AutoResumeDecision.CrashResumeExactly | presentation_job/auto_resume.py:1415-1540 | a crashed run resumes if and only if its gates and the same bounds allow it, and no state is resumed by both paths |
| AutoResumeDecision.CrashVerdictTells | presentation_job/auto_resume.py:1415-1540 | the same of a run whose engine died: one of another shape is turned away before anything is counted |
| AutoResumeDecision.ProviderOfExactly | presentation_job/auto_resume.py:183-201 | a reason asks about the first listed provider whose first occurrence in the lower-case text does not continue a longer word on its left, and about none exactly when there is no such provider |
| AutoResumeDecision.ParkClassExactly | presentation_job/auto_resume.py:692-795 | which parks are transient and which wait on the client, each if and only if; everything else waits on the team |
| AutoResumeDecision.NoReasonNeverResumes | presentation_job/auto_resume.py:692-795 | a park with no reason text waits on the team and never resumes |
| AutoResumeDecision.CredentialParkResumesOnKnownPlan | presentation_job/auto_resume.py:1064-1249 | a park that waits on the team resumes if and only if it names a missing credential and the gates and bounds allow it, and one that waits on the client if and only if it names a missing plan and they do; both only when the provider named in the reason has a locked plan tier |
| AutoResumeDecision.MissingKeyResumes | presentation_job/model_router.py:1834-1836 | the router's own text about a missing key, with a locked tier for that provider: a park of the team's that resumes |
| Defers.WalkIsTruth | presentation_job/defers.py:194-209 | on a whitelisted tree the short-circuit walk never refuses and gives the order-free truth value |
| Defers.OpensExactly | presentation_job/defers.py:227-255 | a non-empty expression opens the gate if and only if its reduced text parses to a whitelisted tree that is true; any other node closes it, even one a short circuit would skip |
| Defers.NoExpression | presentation_job/defers.py:221-229 | no expression or an empty one is no gate, and one that is not text never opens |
| Defers.WantKeyAnswered | presentation_job/defers.py:112-138 | the first visible answer, capture keys before top level, makes a want key yes or no exactly by its spelling and stands for itself otherwise; without one the waiver says no, and else the standard answer |
| Defers.BooleanChoice | presentation_job/defers.py:62-82 | a choice stored as a boolean counts as its word |
| Defers.VideoChoice | presentation_job/defers.py:112-132 | so does one about the video page, whatever the intake says besides |
| Defers.StandardAnswers | presentation_job/defers.py:48-60 | with nothing stored the checkout page is built unless waived and the video page is not |
| Defers.GenericKeyExactly | presentation_job/defers.py:140-149 | any other key resolves to the first stored answer: top level, capture, capture in upper case |
| Defers.ComparisonExactly | presentation_job/defers.py:161-176 | a comparison holds exactly when its key, with or without the prefix, resolves to the wanted text |
| DefersText.ReducedText | presentation_job/defers.py:151-176 | reducing the text of a tree writes the truth value of each comparison in its place and changes nothing else |
| DefersText.ReducedParses | presentation_job/defers.py:236-246 | the reduced text of a tree parses, by Python's boolean grammar, to that tree with its comparisons replaced |
| DefersText.PrintedTreeMeans | presentation_job/defers.py:227-252 | printing any boolean tree over comparisons, reducing, parsing and walking gives the tree's direct meaning |
| DefersText.PathsExactly | presentation_job/defers.py:153-155 | a path is a letter or underscore followed by letters, digits, underscores and dots |
| DefersText.CheckoutGate | presentation_job/defers.py:212-255 | the checkout gate as the manifest writes it opens exactly when the client's answer resolves to yes |
| Invalidate.AsideNamesDiffer | presentation_job/__main__.py:505-519 | different artifacts never get the same aside name, whichever numbered candidates are free |
| Invalidate.RunDir.FreeName | presentation_job/__main__.py:511-519 | the chosen name is a candidate of the artifact and no existing file has it |
| Invalidate.RunDir.RollBack | presentation_job/__main__.py:538-545 | putting the first n moves back restores the file map |
| Invalidate.RunDir.InvalidatePhase | presentation_job/__main__.py:425-569 | all or nothing: files and state are what they were, or every artifact has moved and the row is open with its audit record; it succeeds exactly when the checks pass, no rename is refused and no artifact is listed twice |
| Invalidate.RefusedExactly | presentation_job/__main__.py:456-500 | which refusal, in the order of the checks: no reason, not done, no recorded file, a path outside, a file that is gone |
| Invalidate.RefusedWithoutPhase | presentation_job/__main__.py:460-470 | an id that no row has is refused, after the reason |
| Invalidate.PriorShasExactly | presentation_job/__main__.py:548-556 | the audit record names every recorded file with its hash, or with none |
| Invalidate.RepeatedArtifact | presentation_job/__main__.py:519-545 | a phase that lists one artifact twice passes every check and its moves can never all go through |
| Invalidate.MovedFacts | presentation_job/__main__.py:519-537 | after the moves every artifact path is free, its bytes sit under its own fresh name, and every other file is untouched |
| Invalidate.ContentsKept | presentation_job/__main__.py:531-537 | each content is held under as many names as before |
| Undeliverable.JobState.Sweep | presentation_job/__main__.py:672-739 | one sweep splits the queue exactly into delivered, remaining in order with one more attempt, and newly dead-lettered, and counts what it sent by kind |
| Undeliverable.NothingLost | presentation_job/__main__.py:695-735 | over any run of sweeps and arrivals, queue, dead letters and deliveries hold every letter as often as it entered |
| Undeliverable.SweepsDrain | presentation_job/__main__.py:716-735 | with no arrivals the queue is empty after five sweeps, whatever the transport answers |
| Undeliverable.AtMostFive | presentation_job/__main__.py:695-733 | a message that enters with no attempts is handed to the transport at most five times in any run |
| Undeliverable.FateExactly | presentation_job/__main__.py:695-733 | a message is sent exactly when it has both addresses and the transport takes it; otherwise the fifth failure makes it a dead letter |
| Undeliverable.FiveTries | presentation_job/__main__.py:695-733 | a message that arrives and cannot be delivered waits through four sweeps and is a dead letter with five attempts after the fifth |
| Repin.SortedMinusIs | presentation_job/__main__.py:371-375 | the removed and added lists are sorted and are exactly the set differences |
| Repin.Job.RepinTo | presentation_job/__main__.py:348-411 | the command changes rows, pin, version and history to exactly the specified state |
| Repin.RepinCovers | presentation_job/__main__.py:368-402 | after one real re-pin ids are unique, history links to the live pin, every manifest id has a row, every other row is obsolete and no id disappeared |
| Repin.RepinsSettle | presentation_job/__main__.py:391-406 | the same over any sequence of re-pins, with the history only growing |
| Repin.RepinTwice | presentation_job/__main__.py:364-366 | re-pinning to the pinned manifest is a no-op |
| Repin.ReturnedIdStaysObsolete | presentation_job/__main__.py:377-389 | an obsolete row whose id returns stays as it is and gets no second row |
| Repin.RowStatusExactly | presentation_job/__main__.py:371-380 | after a real re-pin a row is obsolete exactly when it was or its id left the manifest, and a row whose id is in the manifest is unchanged |
| Repin.AddedRowsExactly | presentation_job/__main__.py:381-389 | the rows a re-pin adds come last, are pending, and are of manifest ids that had none |
| CallWalk.Walker.WalkChecker | presentation_job/contract_introspect.py:353-401 | the recursive walk terminates on every call graph and leaves exactly the specified record of seen functions, visits and rules |
| CallWalk.EdgesExactly | presentation_job/contract_introspect.py:378-399 | a function leads exactly to what its calls and table rows lead to, with the arguments each passes on |
| CallWalk.WalkIsReachability | presentation_job/contract_introspect.py:370-401 | each function is visited at most once, the rules are exactly the visited functions' rules in order, nothing unreachable is visited, and exactly the reachable functions are when every parameter a table is looked up by reaches its function with one value |
| CallWalk.LiteralWalkIsReachability | presentation_job/contract_introspect.py:370-401 | in a module that looks no table up by a parameter the walk visits exactly the reachable functions |
| CallWalk.LaterArgumentsIgnored | presentation_job/contract_introspect.py:299-350 | with a parameter-keyed table a reachable check is missed when its function was first met without the parameter |
| RuleMerge.Dedupe | presentation_job/contract_introspect.py:626-652 | the output has the input's keys once each in order of first appearance, and each row is the first of the longest requirements of the ring that mentioned its key first |
| RuleMerge.LongestIs | presentation_job/contract_introspect.py:633-640 | what that winning row is among all rules of its key and ring |
| RuleMerge.MergeIdempotent | presentation_job/contract_introspect.py:641-652 | merging a merged list changes nothing |
| Admission.P95OverBudget | presentation_job/admission.py:178-183 | the percentile exceeds a limit exactly when at least n minus rank of the n latencies do |
| Admission.RankExactly | presentation_job/admission.py:178-183 | the rank is the whole number nearest to 95 hundredths of n - 1, halves to even |
| Admission.Ramp.Observe | presentation_job/admission.py:147-175 | one observation updates the ramp state exactly as specified |
| Admission.CleanExactly | presentation_job/admission.py:147-202 | a clean result grows the scale by half, up to 1, exactly on a third one or later, with no bad one, 20 s into the window and with the percentile within 45 s |
| Admission.BadExactly | presentation_job/admission.py:205-212 | any other observation halves the scale, not below a quarter, and restarts the window |
| Admission.KeptExactly | presentation_job/admission.py:160-163 | all latencies are kept up to 100 and the last 50 when there would be more |
| Admission.Ramp.ObserveResult | presentation_job/admission.py:390-403 | a result becomes the right observation, and a plain failure none |
| Admission.EventExactly | presentation_job/admission.py:390-403 | a rate limit counts whatever else happened, a failure not at all, and a success is slow exactly over 45 s |
| Admission.RunHealthy | presentation_job/admission.py:186-212 | in every reachable state the scale is in [1/4, 1], no bad count is left between calls and at most 100 latencies are kept |
| Admission.RiseIsEarned | presentation_job/admission.py:186-202 | the scale rises only on a third clean result in a row or later, at least 20 s after its last change |
| Admission.FourPromotionsRestore | presentation_job/admission.py:200-202 | between demotions the scale is the start grown once a promotion and capped, so four promotions restore 1 |
| Admission.HoldNeverTaken | presentation_job/admission.py:390-403 | after any sequence of outcomes through the hook and of pressure, the slow-but-clean hold is not taken and a promotion needs only three clean results and 20 s |
| Admission.DemotionRaises | presentation_job/admission.py:205-212 | a demotion raises the scale exactly when it stood below the floor |
| Admission.BandReached | presentation_job/admission.py:110-122 | from any configured start the first demotion enters the band and no later event leaves it |
| Admission.Ramp.EffectiveWidth | presentation_job/admission.py:287-385 | the width is the largest the terms admit: one, or the most that is within every term scaled by the rounded ramp scale |
| Admission.AdmittedBounds | presentation_job/admission.py:366-380 | that width is never above any term, is what the terms allow at full scale, and is at least a quarter of it while the scale is in its band |
| Admission.AllowedExactly | presentation_job/admission.py:321-362 | a width is allowed exactly when every known positive fact allows it; an absent one does not bind |
| Admission.RequestedExactly | presentation_job/admission.py:321-327 | what is asked for is the positive request, else the ready work, else one |
| Admission.Round4Exactly | presentation_job/admission.py:216-221 | the scale is reported as the nearest ten-thousandth, halves to even |
| ContextPack.BudgetFits | presentation_job/context_pack.py:126-139 | every pack within the available budget fits the model exactly when the model really has the minimum to spare |
| ContextPack.BudgetExactly | presentation_job/context_pack.py:116-122 | the first row whose id the model's name contains, whatever its case, gives the budget |
| ContextPack.AvailableExactly | presentation_job/context_pack.py:125-139 | what is available is the larger of the floor and what the model leaves |
| ContextPack.SmallModelOverfilled | presentation_job/context_pack.py:126-139 | a model that takes 50000 characters is granted 20000 beside a reserve it cannot hold |
| ContextPack.BuildPack | presentation_job/context_pack.py:233-377 | overflow exactly when the required characters exceed the budget; otherwise an honest pack: the total is the sum over included rows and within budget, and a file was left out exactly when it did not fit at its turn |
| ContextPack.RequiredWhole | presentation_job/context_pack.py:269-307 | with no slide scoped, every readable required file is carried whole and first, in order |
| ContextPack.AnchorsArePrefix | presentation_job/context_pack.py:337-347 | the anchors that go in are a prefix, ended by the first that does not fit |
| ContextPack.ScopedExactly | presentation_job/context_pack.py:255-347 | in any built pack every readable required file has a row in order, only the map of a scoped pack is left out, and the anchors that go in are the slide's first ones |
| ContextPack.RowsExactly | presentation_job/context_pack.py:291-368 | a file has a row in the built pack if and only if it is readable and a required, an optional or a protected pattern that is not withheld names it |
| ContextPack.SecondBriefMissing | presentation_job/context_pack.py:311-317 | one required brief withholds the protected pattern, and the second brief has no row |
| ContextPack.SpentInOrder | presentation_job/context_pack.py:291-368 | the budget is spent on required files, then protected research, then anchors, then optional files |
| ContextPack.StillProtectedIs | presentation_job/context_pack.py:311-317 | a protected pattern is offered exactly when nothing required names it and it is not the map of a scoped pack |
| ContextPack.OverlapCountsTwice | presentation_job/context_pack.py:269-278 | a file named by two required patterns counts twice and can overflow a budget it fits |
| ContextPack.OverlapExactly | presentation_job/context_pack.py:269-278 | the charge is the size of the files if and only if every file named again is empty, and files that fit once overflow exactly when what is left does not hold the repeats |
| CreditPreflight.ZeroCostIsFree | presentation_job/credit_preflight.py:206-222 | a phase on a flat-rate provider costs nothing and never stops a launch |
| CreditPreflight.PaidFateExactly | presentation_job/credit_preflight.py:561-640 | a phase on any other provider is priced by the catalog under that provider's name, and without a rate stops an ultra launch and no other |
| CreditPreflight.CallPrice | presentation_job/credit_preflight.py:435-451 | a call-priced phase costs its billed calls at the rate, to the nearest micro-dollar, halves to even |
| CreditPreflight.TokenPrice | presentation_job/credit_preflight.py:452-457 | a token-priced phase costs its tokens in and out at their rates a million, to the nearest micro-dollar |
| CreditPreflight.TokensExactly | presentation_job/credit_preflight.py:460-480 | the tokens are those on record, else calls times the whole averages of the last run, else two thirds and one third of the planning budget |
| CreditPreflight.CallsExactly | presentation_job/credit_preflight.py:423-450 | the calls are the measured number, else the planned one, whole; a completed phase is billed for those on record |
| CreditPreflight.PlanningBudget | presentation_job/credit_preflight.py:479-480 | without history the planning budget is spent whole, at most one token short, two thirds of it in |
| CreditPreflight.Preflight | presentation_job/credit_preflight.py:512-743 | blocked exactly when some known balance is below its provider's estimate or, in ultra mode, a counted phase on a paid provider has no rate; the total is the cost of all priced phases; a cheaper mode is offered exactly for a pure balance block |
| CreditPreflight.TallySorts | presentation_job/credit_preflight.py:561-647 | a provider's bucket holds exactly its priced phases and their cost, and warnings and refusals exactly the phases with those fates, in plan order |
| CreditPreflight.NoPhaseLost | presentation_job/credit_preflight.py:561-634 | buckets, refusals and warnings together are as many as the routed phases |
| CreditPreflight.TotalIsSpend | presentation_job/credit_preflight.py:637-654 | the sum of the provider estimates is the cost of all priced phases, in exact micro-dollars |
| CreditPreflight.BlockedExactly | presentation_job/credit_preflight.py:651-701 | the two reasons for a block, each if and only if |
| CreditPreflight.RaisingABalance | presentation_job/credit_preflight.py:655-701 | raising known balances never turns proceed into blocked |
| PngScan.Validate | presentation_job/artifacts.py:232-243 | the scan terminates on every byte string and finds an end exactly when the bytes are the signature, whole chunks other than IEND and an IEND header |
| PngScan.AcceptedExactly | presentation_job/artifacts.py:232-243 | that characterisation against the chunk printer, both ways |
| PngScan.PrefixAccepted | presentation_job/artifacts.py:234-242 | a printed image cut anywhere is accepted exactly when the cut leaves the 8 header bytes of IEND |
| PngScan.PrintThenRead | presentation_job/artifacts.py:237-237 | a big-endian length of any number of bytes read back is the length printed |
| ArcSlides.SlotsFromObj | presentation_job/arc_slides.py:146-183 | None exactly when no slide array is recognised; otherwise a stable ordinal-sorted permutation of the numbered entries |
| ArcSlides.SlideArrayExactly | presentation_job/arc_slides.py:159-172 | the array is the value itself or the list under the first of four keys that holds one, and none in a parse error |
| ArcSlides.OrdinalExactly | presentation_job/arc_slides.py:130-143 | a slot's number is that under the first of three keys that holds one, else its position |
| ArcSlides.LabelExactly | presentation_job/arc_slides.py:186-203 | a slot's label is the stripped text under the first of four keys that holds a visible one |
| ArcSlides.NumberedCarries | presentation_job/arc_slides.py:130-143 | a slot says its number under both names and keeps every other field of its entry |
| ArcSlides.ReadTwice | presentation_job/arc_slides.py:146-183 | reading its own output changes nothing |
| ArcSlides.CountAgrees | presentation_job/arc_slides.py:232-240 | the count is the length of the recognised array, None when there is none |
| ArcSlides.SectionNamesFromObj | presentation_job/arc_slides.py:206-229 | exactly the distinct slot labels in first-appearance order, None exactly when there are none |
| ArcSlides.JoinMeets | presentation_job/arc_slides.py:186-203 | a text is a section name if and only if some slot reads that label |

## Left out

- Text is ASCII: `strip`, `lower` and the class `\s` act on ASCII blanks and letters only.
- JSON fractions, numeric texts with underscores as revisions, and provider entries that are lists of pairs.
- Isolation is stated for sub-records that name no provider of their own.
- A flat record whose `provider` is not a text: the source files it under the text of that value, the model
  under nothing.
- The router, OpenClaw and plan-file readers, network probes, secrets and message transports: the detected
  route, the declared providers, the locked answers and each dispatch outcome are inputs.
- The trail, notes and wording of `detect`, and all log, alert and notification texts.
- `_store_lock` is modelled as interleaved steps over one state value, not as a class: several processes share it.
- The backup file of the upgrade appears only as one more way for a write to fail.
- The pinned-manifest lookup and the re-pin availability probe are parameters, and the resource profile is a map
  of its entries, empty when it is switched off or unreadable.
- `evaluate` reads outside the lock that `record_attempt` takes, so one poller and a clock that never goes back are
  assumed over whole runs.
- Unified: the two ledgers are counted oldest ledger first; the source sorts them, but reads only the size
  and the latest stamp.
- Python's parser is fixed only on texts of booleans, parentheses and the three operators; elsewhere it is a parameter.
- The nesting depth at which Python's own parser gives up.
- In `--invalidate-phase` paths are already normalised names, staying inside the run directory is a
  parameter, directories are not modelled, and saving the state is one atomic step after the moves.
- Whole-root sweeping of undeliverable queues: it only adds up counters of the per-run sweep.
- A re-pin's notes, the previous-pin fields and the manifest path.
- Reading a checker's source into functions, calls and tables; rules with their texts are inputs. The
  merge assumes that no rule code begins with `@`, which only source keys do.
- RepinsSettle: assumes that equal manifest hashes mean equal phase lists.
- Engine starts are dated by the stamps of their attempts. Ledger stamps of other writers are taken to be whole
  seconds, as this writer's are.
- The ramp's scale, clock and latencies are exact reals; a clock that goes backwards and binary rounding are not modelled.
- Parsing of the `effective_width` arguments, the hardware probe and the name of the binding limiter.
- No bound on the framed text of a pack, only on file characters; content hashes and shard hints are left out.
- The call totals, rate sources and model lists of the credit verdict, and the fetching and caching of prices.
- Money is rounded to micro-dollars half to even; binary floating point before that rounding is not modelled.
- The hash and render-manifest checks of `validate_image`, and the other artifact validators.
- Slide files on disk and their priority order: the slot reader starts at a parsed value.

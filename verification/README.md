# Remote SQL Agent: a verified model

Remote SQL Agent lets a control plane watch and edit SQL Server Agent jobs through workers that sit beside each
instance. This project models the parts whose mistakes nobody would see until a job did the wrong thing, and proves
what they are relied on for:

- **Editing the step graph** (`job_*.dfy`). Agent names steps by position, so every insert, delete, reorder, disable
  or enable rewrites a control-flow graph. `JobEdit` gives each edit as a function of the definition; `JobEditor` is
  the source's own object graph (nodes spliced and swapped in place, step copies assigned field by field), proved to
  compute exactly those functions. A job's meaning is its set of runs: sequences of step visits in which the
  environment chooses success or failure each time.
- **Canonical form and signed bytes** (`canonical.dfy`, `sort_keys*.dfy`, `key_order.dfy`, `json*.dfy`,
  `numerals.dfy`, `utf16.dfy`, `job_record.dfy`, `job_schema.dfy`, `text_normalise.dfy`, `length_prefix.dfy`,
  `signing.dfy`). Drift detection compares canonical strings, so two jobs must get the same string exactly when they
  mean the same.
- **Schedules as the editor shows them** (`schedule*.dfy`, `date_text.dfy`, `time_text.dfy`, `weekdays.dfy`,
  `doubles.dfy`, `number_text.dfy`). The conversions go through `Number(text)` and `toString`, so what survives them
  depends on NaN, infinity and exponents too.
- **The worker's delivery protocol** (`outbox.dfy`, `drain.dfy`, `history_*.dfy`, `commands.dfy`, `session.dfy`).
  A bounded evicting queue, the loop that ships it, the history bookmark with crashes and overlapping polls, the
  gates in front of `apply` with pruned idempotency records, and the reconnecting session. The queue and the session
  are classes; the history and command protocols are also state machines, for theorems over whole runs.
- **The linters' scanners** (`tsql_*.dfy`, `brackets.dfy`, `locator.dfy`). The masking scanner against a grammar of
  lexemes, the stack-based bracket matchers against a grammar of well-nested words, the line table.

Loops and in-place updates of the source are loops and in-place updates here, each proved against a function or a
relation whose own properties are the theorems. `dafny verify dfyconfig.toml` checks everything.

## What came out

Most of the promises hold as written. These do not; the model says exactly when they do, and the lemmas named here are
inputs that show it:

- *Disable, then enable, restores the job* holds exactly for jobs that meet `Reversible`. A chain step entered only
  by falling through meets it; a step that quits, below one that falls into it, never does
  (`JobExamples.EarlyEndIsNotRestored`).
- *Disabling a step makes it unreachable* fails exactly when it was reachable and its success branch leads back to
  itself (`JobExamples.LoopingStepStaysReachable`).
- *Disabling a step leaves the rest of the job as it was* holds for the visits of every run in which the step would
  have succeeded. The result such a run reports is kept exactly when the step's success does not end the job, or every
  branch into it, of a step the job reaches without this one failing, quits as this one's success would
  (`JobExamples.DisablingChangesResult`).
- *A step moved away and back leaves the job as it was* holds exactly when the steps were listed in order and
  whichever step stood last in between survives that: it falls through on success and quits with failure, or falls
  through on neither branch and does not already carry the automatic ending
  (`JobExamples.ReorderLosesFallThrough`).
- *The start step follows an added step* fails exactly when the options give the new step the start step's own
  number and it lands above it; `JobRenaming.AddStepStartTaken` is such a job.
- *The order of the steps array does not show in the canonical string* holds for steps with different ids. The string
  is the same exactly when every id carries the same steps in the same order, so where an id repeats, which the schema
  allows, a reordering shows (`Canonical.DuplicateIdsKeepTheirOrder`).
- *Keys are sorted by code unit* holds exactly when no object, at any depth, holds two array indices of which the one
  with fewer digits is larger than what the other starts with, such as 9 and 10, or an index and a name before it by
  code unit (`KeyOrder.IndicesComeOutByNumber`). Every object in a job's canonical text is in code-unit order.
- *Dates and times survive the editor* holds for texts made of the right number of digits and for no others, except
  that NaN, infinity and numerals from 10^21 on print as they were read (`DateTexts.OddDatesSurvive`).
- *No history row is skipped* holds for rows that are dated and visible before a poll reads past their place. An
  undated row the bookmark passes is never sent (`HistorySync.UndatedRowIsLost`). One that becomes visible late may be
  lost or may still be read (`HistorySync.LateRowIsLost`, `HistorySync.LateRowIsRead`).
- *A history poll catches up* holds exactly when no undated row sits in an earlier batch-sized window than a dated
  one, because undated rows are dropped after the limit is applied. Poll after poll catches up exactly when no
  `batchSize` undated rows in a row stand before a dated one (`HistoryPoll.TwoUndatedRowsBlock`).
- *Events from superseded streams change nothing* holds for messages, errors and ends, but not for `drain`: one from
  an old stream clears the backpressure of the new one (`Session.SupersededDrainHappens`).
- *Exactly one way in* survives a `reconnect` exactly when no connect attempt is in flight
  (`Session.ReconnectDoubles`). A `start` right after a `stop` never keeps it. Where the stop found the timer
  armed, that timer stays marked as set, and the next failed attempt leaves the session with no way in for good
  (`Session.RestartStrands`).
- *Stopping ends the session* holds exactly when the stop finds it waiting for its timer. An attempt in flight still
  opens its stream, and a stream not yet let go can still be acknowledged (`Session.StoppedAndConnected`).
- Equal signing bytes determine the issue time, except that an absent one cannot be told from the epoch.

## Model

| member | source | states |
|---|---|---|
| JobFlow.ReachableSteps | packages/protocol/src/job-flow.ts:97-116 | The worklist terminates on every job and returns exactly the existing steps some run leads to. |
| JobFlow.ReachableIffVisited | packages/protocol/src/job-flow.ts:97-116 | Reachable means the same as being the last visit of some run. |
| JobFlow.ReachableIsLeast | packages/protocol/src/job-flow.ts:97-116 | Reachability is the least set holding the start step and closed under both branches. |
| JobFlow.UnreachableSteps | packages/protocol/src/job-flow.ts:126-131 | The exact complement of the reachable steps, with multiplicity, in step order. |
| JobFlow.IsStepDisabled | packages/protocol/src/job-flow.ts:142-144 | True exactly for ids no run visits. |
| JobFlow.NextId | packages/protocol/src/job-flow.ts:72-89 | Falling through leads to the smallest id above the step's own, whatever the array order. |
| JobFlow.InferredStepIsNext | packages/protocol/src/job-flow.ts:42-63 | After any history Agent can produce, retries and cancels included, the inferred step is the only one whose completion can come next. |
| JobFlow.InferredStepIsReachable | packages/protocol/src/job-flow.ts:42-63 | After such a history the inferred id is one a run arrives at. |
| JobWellFormed.RunningStepIsReachable | packages/protocol/src/job-flow.ts:42-63 | On a well-formed job the step inferred as running exists and is reachable. |
| JobDisable.DisabledRuns | packages/protocol/src/job-edit.ts:181-256 | The runs of the edited job are exactly the original runs in which the step always succeeds, with its visits erased; one finishes exactly when the other does. |
| JobDisable.LoopingRun | packages/protocol/src/job-edit.ts:181-256 | A step whose success leads back to itself: disabling it leaves every run as it was. |
| JobDisable.DisabledSuccessor | packages/protocol/src/job-edit.ts:181-256 | Every other step leads where it led, past the disabled one. |
| JobDisable.DisabledIsUnreachable | packages/protocol/src/job-edit.ts:181-256 | The step becomes unreachable unless its success leads back to itself, and then keeps its reachability. |
| JobDisable.NothingNewReachable | packages/protocol/src/job-edit.ts:181-256 | Nothing previously unreachable becomes reachable. |
| JobDisable.StillReachable | packages/protocol/src/job-edit.ts:181-256 | What a run reaches with the step succeeding stays reachable. |
| JobDisable.ReachableAfterDisabling | packages/protocol/src/job-edit.ts:181-256 | Another step stays reachable exactly when the job before the edit reaches it with a failure of the disabled step ending the run. |
| JobDisable.RepointedBranchesAreReported | packages/protocol/src/job-edit.ts:192-238 | A repointed explicit branch is warned about, and nothing else is reported as one. |
| JobOutcome.ResultsKeptExactly | packages/protocol/src/job-edit.ts:181-256 | Disabling keeps the reported result of every finished run exactly when the step's success does not end the job, or each branch into it, of a step the original job reaches without this one failing, quits as its success would. |
| JobOutcome.LoopingResult | packages/protocol/src/job-edit.ts:181-256 | Where the step loops on success every finished run stays one and reports what it did. |
| JobExamples.LoopingStepStaysReachable | packages/protocol/src/job-edit.ts:181-256 | A well-formed job whose start step repeats on success: disabled, it is still reachable. |
| JobExamples.DisablingChangesResult | packages/protocol/src/job-edit.ts:205-238 | A job and a finished run of it that reported success and reports failure once a step is disabled. |
| JobGraph.RebuildRenames | packages/protocol/src/job-edit.ts:379-451 | Any arrangement of the nodes comes out as a graph renaming: explicit jumps still point at the same step, lost failure jumps quit with failure, all other fields are kept. |
| JobRenaming.AddStepRenames | packages/protocol/src/job-edit.ts:63-94 | Adding is a renaming plus the new step, placed after the one asked for or at the end. |
| JobRenaming.AddStepStart | packages/protocol/src/job-edit.ts:63-94 | The start step follows exactly unless the new step carries its number and lands above it. |
| JobRenaming.PlainAddKeepsStart | packages/protocol/src/job-edit.ts:63-94 | Without a step id among the options the start step always follows. |
| JobRenaming.AddStepStartTaken | packages/protocol/src/job-edit.ts:434-445 | A concrete job whose start is taken over by the added step. |
| JobRenaming.RemoveStepRenames | packages/protocol/src/job-edit.ts:97-112 | Removing is a renaming onto the rest; a removed start gives way to step 1. |
| JobRenaming.RemoveStepRefuses | packages/protocol/src/job-edit.ts:97-112 | The only step, and unknown steps, are left alone. |
| JobRenaming.ReorderStepRenames | packages/protocol/src/job-edit.ts:145-160 | Dropping a step at the truncated, clamped slot is a renaming. |
| JobRenaming.MoveStepRenames | packages/protocol/src/job-edit.ts:115-131 | Moving by one is a renaming, and nothing at the ends of the list. |
| JobWarnings.LostJumpsAreReported | packages/protocol/src/job-edit.ts:379-451 | Under any rearrangement, a surviving step's branch is warned about exactly when its explicit jump lost its target. |
| JobWarnings.RemovalIsReported | packages/protocol/src/job-edit.ts:97-112 | Removing warns about exactly the branches that jumped to the removed step or to no step. |
| JobWarnings.RemovedStartIsReported | packages/protocol/src/job-edit.ts:434-445 | The operator is told that the start step went exactly when it did. |
| JobWellFormed.EditKeepsWellFormed | packages/protocol/src/job-edit.ts:63-336 | Each of the six edits, on any step known or not, keeps a job well-formed: ids 1..n, start exists, jumps resolve, unused targets 0, the last step never falls through. |
| JobWellFormed.EditsKeepWellFormed | packages/protocol/src/job-edit.ts:63-336 | So does every sequence of them. |
| JobRoundTrip.EnableUndoesDisable | packages/protocol/src/job-edit.ts:181-336 | Enabling undoes disabling on a well-formed job exactly when the job meets `Reversible`, a condition on the job before the edit. |
| JobRoundTrip.ChainStepIsReversible | packages/protocol/src/job-edit.ts:258-336 | An inner chain step entered only by falling through, whose success leads to the step below and above which nobody jumps over it, meets it. |
| JobRoundTrip.QuittingStepIsNotRestored | packages/protocol/src/job-edit.ts:293-329 | A step that quits inside the chain is never put back under the step that fell into it. |
| JobExamples.EarlyEndIsNotRestored | packages/protocol/src/job-edit.ts:293-329 | A well-formed job that disabling and enabling a quitting step does not restore. |
| JobRoundTrip.ReorderAndBack | packages/dashboard/src/pages/JobEditor.tsx:98 | Reordering to any slot and back restores the definition exactly when nothing moved, or the steps were in order and the step last meanwhile survives being last. |
| JobRoundTrip.SameLastSurvives | packages/dashboard/src/pages/JobEditor.tsx:98 | In particular whenever the same step stays last throughout. |
| JobExamples.ReorderLosesFallThrough | packages/protocol/src/job-edit.ts:468-508 | A job whose first step goes on after a failure, and does not any more once the last step was dragged up and back. |
| JobEditor.ToNodes | packages/protocol/src/job-edit.ts:357-376 | The node objects carry exactly the resolved graph, a later duplicate id winning. |
| JobEditor.RebuildJob | packages/protocol/src/job-edit.ts:379-451 | Renumbering the node objects yields the `Rebuild` of the graph they carry, warnings included. |
| JobEditor.ApplyEndOfListDefaults | packages/protocol/src/job-edit.ts:468-508 | The end-of-list repairs and their warnings, as the specification has them. |
| JobEditor.NextStepName | packages/protocol/src/job-edit.ts:511-516 | The loop stops at the first free "Step k" from n + 1 on. |
| JobEdit.FreeStepName | packages/protocol/src/job-edit.ts:511-516 | The name is free and every earlier candidate is taken. |
| JobEditor.AddStepTo | packages/protocol/src/job-edit.ts:63-94 | Splicing a new node in computes the `AddStep` edit. |
| JobEditor.RemoveStepFrom | packages/protocol/src/job-edit.ts:97-112 | Splicing a node out computes the `RemoveStep` edit. |
| JobEditor.MoveStepBy | packages/protocol/src/job-edit.ts:115-131 | Swapping two nodes computes the `MoveStep` edit. |
| JobEditor.ReorderStepTo | packages/protocol/src/job-edit.ts:145-160 | Two splices compute the `ReorderStep` edit, fractional slots included. |
| JobEditor.DisableStepIn | packages/protocol/src/job-edit.ts:181-256 | The copying loop computes the `DisableStep` edit, refusals included. |
| JobEditor.EnableStepIn | packages/protocol/src/job-edit.ts:266-336 | The copying loop computes the `EnableStep` edit, its guard being the worklist search. |
| Canonical.CanonicalJobDecides | packages/protocol/src/canonical.ts:77-107 | Any two jobs get the same canonical text exactly when their settings agree, up to the order of schedules and target servers and the layout of texts, and every step id carries the same steps in the same array order. |
| Canonical.NormaliseJobDecides | packages/protocol/src/canonical.ts:77-101 | The same for the normalised jobs themselves. |
| Canonical.StepsDecide | packages/protocol/src/canonical.ts:81-83 | The same for the step lists alone, repeated ids or not. |
| Canonical.DistinctIdsDecide | packages/protocol/src/canonical.ts:77-107 | Where no id repeats, the text is the same exactly when each step has a counterpart anywhere in the other array. |
| Canonical.DuplicateIdsKeepTheirOrder | packages/protocol/src/canonical.ts:81-83 | Two differently named steps with one id: each has its counterpart in the swapped array, and the text differs. |
| Canonical.ScheduleLeOrders | packages/protocol/src/canonical.ts:84-98 | The comparator with its tiebreak is total, and only equal schedules tie. |
| Canonical.SchedulesDecide | packages/protocol/src/canonical.ts:84-98 | Sorted schedule lists agree exactly when they hold the same schedules, same-named ones included. |
| Canonical.NormaliseJobTwice | packages/protocol/src/canonical.ts:77-101 | Normalising is idempotent. |
| Canonical.ParseCanonicalJob | packages/protocol/src/canonical.ts:177-181 | Parsing the canonical text of a valid job gives the normalised job back. |
| Canonical.CanonicaliseIgnoresKeyOrder | packages/protocol/src/canonical.ts:104-107 | Key order at any depth never reaches the text. |
| Canonical.CanonicaliseAgain | packages/protocol/src/canonical.ts:104-107 | Canonicalising what the text parses to gives the same text. |
| SortKeys.SortedDecides | packages/protocol/src/canonical.ts:46-71 | Two values sort to the same JSON exactly when they are the same value up to key order, undefined members and the sign of zero. |
| SortKeys.SortedExactly | packages/protocol/src/canonical.ts:46-71 | It throws exactly on a non-finite number, an undefined element or an unsupported value, at any depth. |
| SortKeys.CanonicalTextDecides | packages/protocol/src/canonical.ts:129-131 | The same for the printed text. |
| SortKeys.CanonicalTextReadsBack | packages/protocol/src/canonical.ts:129-131 | The text parses to the same value, which has the same text again. |
| SortKeys.SortedInOrder | packages/protocol/src/canonical.ts:52-62 | Every object of the result is in property order, array indices first, and names no key twice. |
| KeyOrder.DisagreeExactly | packages/protocol/src/canonical.ts:52-62 | Two keys come out in another order than by code unit exactly when both are indices and the one with fewer digits is larger than what the other starts with, or one is an index and the other a name before it. |
| KeyOrder.InUnitOrderExactly | packages/protocol/src/canonical.ts:46-71 | The sorted value is in code-unit order in every object, at any depth, exactly when no two keys of one object do. |
| KeyOrder.IndicesComeOutByNumber | packages/protocol/src/canonical.ts:52-62 | Two keys on which they do not agree, and the object they make. |
| KeyOrder.CanonicalJobInUnitOrder | packages/protocol/src/canonical.ts:104-107 | In the canonical text of any job every object, at any depth, lists its keys by code unit. |
| SortKeysLoop.SortKeysDeep | packages/protocol/src/canonical.ts:46-71 | The recursion that fills a fresh object in sorted key order, with JavaScript's placement of index names, computes that value. |
| JsonRoundTrip.ParsePrint | packages/protocol/src/canonical.ts:129-131 | Reading printed JSON gives the value back: all finite numbers, all strings of code units, lone surrogates and escapes included. |
| JsonRoundTrip.PrintInjective | packages/protocol/src/canonical.ts:129-131 | Equal JSON text means equal values. |
| TextNormalise.NormaliseDecides | packages/protocol/src/canonical.ts:34-42 | Two texts normalise alike exactly when they agree line by line, whatever the line endings, trailing blanks and trailing empty lines. |
| TextNormalise.NormaliseKeepsText | packages/protocol/src/canonical.ts:34-42 | Normalising changes no line. |
| TextNormalise.NormaliseTwice | packages/protocol/src/canonical.ts:34-42 | Normalising twice changes nothing more. |
| JobSchema.JobReadsBack | packages/protocol/src/job-definition.ts:85-99 | A valid job written out as an object passes the schema and is read back unchanged. |
| JobSchema.JobSameRead | packages/protocol/src/job-definition.ts:85-99 | Objects that are the same value are read as the same job, or both refused. |
| Schedules.HumaneRoundTrip | packages/protocol/src/schedule.ts:157-295 | Decoding undoes encoding exactly on humane schedules with distinct weekdays in order, surviving times and dates and an end date other than 9999-12-31. |
| Schedules.EncodingRoundTrip | packages/protocol/src/schedule.ts:157-295 | Encoding undoes decoding exactly on encodings with known codes, zero unused fields, seven-bit weekdays and surviving dates and times. |
| Schedules.IntegerEncoding | packages/protocol/src/schedule.ts:124-147 | For integers below 10^21 that means dates of at most eight digits and times of at most six, without a sign. |
| Weekdays.DaysOfFlags | packages/protocol/src/schedule.ts:176 | Reading back the flags of days gives those days exactly when they were distinct and in week order. |
| Weekdays.FlagsOfDays | packages/protocol/src/schedule.ts:176 | Flags survive the detour through days exactly when they fit in seven bits. |
| TimeTexts.TimeRoundTrip | packages/protocol/src/schedule.ts:124-136 | A time number survives exactly when it is NaN or a whole number of at most six digits. |
| TimeTexts.TimeTextRoundTrip | packages/protocol/src/schedule.ts:124-136 | A time text survives exactly when it is two-digit HH:MM:SS or "00:0N:aN". |
| DateTexts.DateRoundTrip | packages/protocol/src/schedule.ts:139-147 | A date number survives exactly when it is NaN, infinity or a whole number whose text has at most eight characters. |
| DateTexts.DateTextRoundTrip | packages/protocol/src/schedule.ts:139-147 | A date text survives exactly when it is digits in yyyy-mm-dd shape, or NaN, infinity or a zero-padded numeral from 10^21 on cut in that shape. |
| DateTexts.OddDatesSurvive | packages/protocol/src/schedule.ts:139-147 | Three such texts. |
| NumberTexts.CutShort | packages/protocol/src/schedule.ts:139-147 | No proper beginning of a large number's text reads as that number or more, so longer texts never survive. |
| LengthPrefix.LengthPrefixed | packages/protocol/src/signing.ts:65-74 | The chunk loop produces the specified bytes, and fails exactly when a part has 2^32 bytes or more. |
| LengthPrefix.PartsOfPrefixed | packages/protocol/src/signing.ts:65-74 | The encoding can be decoded, so it is injective on all lists of parts shorter than 2^32. |
| LengthPrefix.PrefixedOfParts | packages/protocol/src/signing.ts:65-74 | Nothing else decodes. |
| LengthPrefix.TextBytesInjective | packages/protocol/src/signing.ts:65-74 | Lists of texts with the same bytes are the same list. |
| Signing.IssuedAtDecides | packages/protocol/src/signing.ts:97-99 | The issue-time text tells times apart, an absent one reading as the epoch. |
| Signing.SigningBytesDecide | packages/protocol/src/signing.ts:96-107 | Signing bytes are equal exactly when id, kind, payload hash, issue time and instance name are. |
| Signing.SigningBytesMeanSameCommand | packages/protocol/src/signing.ts:87-107 | Where the hash does not collide on the two payloads, exactly when the payloads are the same value too. |
| OutboxStore.Outbox.Enqueue | packages/worker/src/outbox.ts:114-122 | The row goes last; the queue is the newest `maxRows` rows in order, and what went is counted. |
| OutboxStore.Outbox.EvictIfNeeded | packages/worker/src/outbox.ts:124-137 | Only the oldest rows go, exactly as many as are too many. |
| OutboxStore.Outbox.Peek | packages/worker/src/outbox.ts:140-158 | A prefix of the queue, short only when there are no more rows; every row left out is younger than every row read. |
| OutboxStore.Outbox.Acknowledge | packages/worker/src/outbox.ts:165-186 | Exactly the listed rows still present go, repeated and already evicted ids counting once or not at all; `Valid` keeps the cached depth and the conservation law. |
| OutboxStore.Outbox.Stats | packages/worker/src/outbox.ts:188-190 | The cached depth is the real row count. |
| OutboxStore.Outbox.SetHistoryMark | packages/worker/src/outbox.ts:203-212 | A bookmark that is set never moves back, and no other instance's moves. |
| OutboxStore.Outbox.RecordApplied | packages/worker/src/outbox.ts:285-293 | The first record of a command stands. |
| OutboxStore.Outbox.PruneApplied | packages/worker/src/outbox.ts:306-311 | At most once an hour, and then exactly the records older than the age given. |
| OutboxStore.WithoutPrefix | packages/worker/src/outbox.ts:124-186 | Deleting the oldest rows by id leaves the rest untouched. |
| Drain.DrainOutbox | packages/worker/src/drain-outbox.ts:33-62 | It terminates; parseable rows are handed over oldest first and once each; an untouched suffix remains; it stops only at an empty queue or a refused message. |
| Drain.SendBatch | packages/worker/src/drain-outbox.ts:41-56 | The ids to acknowledge are those of the prefix that was sent or cannot be parsed. |
| Drain.NothingRefusedDrainsAll | packages/worker/src/drain-outbox.ts:33-62 | If no send is refused the queue ends empty and every parseable message was sent. |
| Drain.DrainIsDetermined | packages/worker/src/drain-outbox.ts:33-62 | Where a drain stops depends on the rows and the refusals alone; the batch size cannot be seen. |
| HistorySync.NoRowIsSkipped | packages/worker/src/instance-monitor.ts:442-476 | In every state of every run, with crashes between any two statements, overlapping polls, evictions and partial drains, a history row above the seeded bookmark and up to the current one was handed over, is queued, or was evicted, exactly if it is dated, unless it became visible when a poll had already read past it; and an undated one never. |
| HistorySync.UndatedRowIsLost | packages/worker/src/sql/agent-repo.ts:501-502 | A run that passes over an undated row. |
| HistorySync.LateRowIsLost | packages/worker/src/instance-monitor.ts:448-475 | A run that passes over a dated row which became visible late. |
| HistorySync.LateRowIsRead | packages/worker/src/instance-monitor.ts:448-475 | And one that sends such a row. |
| HistorySync.StepKeepsInvariant | packages/worker/src/index.ts:95-111 | Every step of poll, emit, insert, evict, drain, crash and restart keeps the account of rows. |
| HistorySync.MarkNeverFalls | packages/worker/src/outbox.ts:203-212 | The bookmark never falls in any run. |
| HistoryPoll.PollHistory | packages/worker/src/instance-monitor.ts:442-476 | One undisturbed poll terminates, emits dated rows above the bookmark once and in order, exactly as many as `Emitted` says, and leaves the bookmark at the last of them, which is as far as `Reached` says. |
| HistoryPoll.EmittedExactly | packages/worker/src/sql/agent-repo.ts:454-518 | It leaves a dated row behind exactly when an undated one sits in an earlier window of `batchSize` rows. |
| HistoryPoll.UndatedWindowBlocks | packages/worker/src/sql/agent-repo.ts:476-518 | A whole window of undated rows stops every poll at the same bookmark, whatever is logged later. |
| HistoryPoll.NeverCaughtUpExactly | packages/worker/src/instance-monitor.ts:442-476 | Polling a fixed history over and over leaves a dated row behind for ever exactly when `batchSize` undated rows in a row stand before one. |
| HistoryPoll.TwoUndatedRowsBlock | packages/worker/src/instance-monitor.ts:442-476 | Three rows and a batch size for which no number of polls sends the last row. |
| HistoryPoll.WindowIsBatch | packages/worker/src/sql/agent-repo.ts:454-472 | The window the loop reads is the one a poll of the state machine reads. |
| HistoryPoll.DatedIsBatch | packages/worker/src/sql/agent-repo.ts:501-502 | What it emits of that window is what the state machine's poll emits. |
| HistoryPoll.AboveBatch | packages/worker/src/instance-monitor.ts:448-475 | Moving the bookmark to any row above it leaves exactly the rows after that row. |
| Commands.EvaluateAndApply | packages/worker/src/command-handler.ts:94-191 | The early-return gates decide as specified; msdb and the idempotency table change only when all are passed, and then both exactly as `apply` says. |
| Commands.ConflictCheck | packages/worker/src/command-handler.ts:331-377 | The early returns compute the specified refusal. |
| Commands.RecordReplaysOutcome | packages/worker/src/command-handler.ts:140-190 | What is recorded replays the first success flag and error code exactly. |
| Commands.AppliedAtMostOnce | packages/worker/src/command-handler.ts:94-191 | Once the handler has returned from the apply stage for a command, no redelivery in any run reaches `apply`, though records are pruned after 24 hours and the worker restarts; one that passes the first three gates replays the first outcome. |
| Commands.ReturnsOnce | packages/worker/src/command-handler.ts:94-191 | No command returns from the apply stage twice in a run. |
| Session.ExactlyOneWay | packages/worker/src/session.ts:132-340 | After one start, an unstopped session always has exactly one of a connect attempt in flight, a current stream, an armed timer; connected implies a current stream. |
| Session.ReconnectExactly | packages/worker/src/session.ts:132-141 | A reconnect keeps that exactly when the session is stopped or no attempt is in flight. |
| Session.ReconnectDoubles | packages/worker/src/session.ts:132-141 | A run in which one during an attempt leaves two ways in, and then a stream that is abandoned without being ended. |
| Session.StoppedConnectsExactly | packages/worker/src/session.ts:77-83 | A stopped session can still come to be connected exactly while an attempt is in flight or it has not let go of its stream. |
| Session.StopIsFinalExactly | packages/worker/src/session.ts:77-83 | Stopping rules that out exactly when it finds the session waiting for its timer. |
| Session.StoppedAndConnected | packages/worker/src/session.ts:155-291 | A run that ends stopped and connected. |
| Session.RestartNeverKeeps | packages/worker/src/session.ts:72-83 | Started again right after a stop, it has two ways in, or a timer marked as set that never fires. |
| Session.RestartStrandsExactly | packages/worker/src/session.ts:293-340 | A start right after a stop, followed by a failed attempt, leaves a set and dead timer and no way in exactly when the stop found the timer armed. |
| Session.RestartStrands | packages/worker/src/session.ts:293-340 | A run that ends running with no way in, and from which no events but a start lead to a connection. |
| Session.SupersededStreamsAreIgnored | packages/worker/src/session.ts:155-291 | Messages, errors and ends of a superseded stream change nothing. |
| Session.SupersededDrainExactly | packages/worker/src/session.ts:97-116 | A late drain event changes the session exactly when it has backpressure to clear. |
| Session.SupersededDrainHappens | packages/worker/src/session.ts:97-116 | A run in which it does, after the server closed the old stream; a stream this side has ended never drains. |
| Session.ControlPlaneSession.Send | packages/worker/src/session.ts:97-116 | Accepted exactly on a current stream whose hello was acknowledged and whose write does not throw; a full buffer is accepted too and marks backpressure once. |
| Session.ControlPlaneSession.DoHandleDisconnect | packages/worker/src/session.ts:293-319 | The fields change as the state machine's step does. |
| TsqlMask.Scan | packages/dashboard/src/lint/tsql.ts:64-148 | The nested loops terminate and compute the mask and the reports. |
| TsqlMask.MaskIsClean | packages/dashboard/src/lint/tsql.ts:64-148 | No quote, opening square bracket, `--` or `/*` is left in the mask. |
| TsqlMask.MaskKeepsShape | packages/dashboard/src/lint/tsql.ts:64-148 | Length and line breaks are kept, and characters change only to spaces. |
| TsqlMask.MaskIsFixpoint | packages/dashboard/src/lint/tsql.ts:64-148 | Scanning the mask changes nothing and reports nothing. |
| TsqlMask.AtMostOneReport | packages/dashboard/src/lint/tsql.ts:64-148 | At most one unterminated region is reported, the one that runs to the end. |
| TsqlLexemes.MaskFollowsLexemes | packages/dashboard/src/lint/tsql.ts:64-148 | Every text splits into lexemes of the grammar, and any such split says which characters are blanked. |
| TsqlLexemes.CommentEndsAtItsCloser | packages/dashboard/src/lint/tsql.ts:95-113 | The depth counter finds exactly the closer of the nested-comment grammar. |
| TsqlLexemes.QuoteEndsAtItsCloser | packages/dashboard/src/lint/tsql.ts:115-142 | Doubled delimiters stay inside the region; it ends at the first single one. |
| TsqlLexemes.RegionIsLexeme | packages/dashboard/src/lint/tsql.ts:64-148 | The region opened at a place is the lexeme there, unterminated exactly when there is none. |
| Brackets.WellNestedIffNothingPending | packages/dashboard/src/lint/powershell.ts:192-236 | The stack discipline accepts exactly the well-nested words of the inductive grammar. |
| Brackets.BracketBalance | packages/dashboard/src/lint/powershell.ts:192-236 | Nothing is reported exactly on well-nested text of three kinds, recovery pops and report cap notwithstanding; the first finding is where the text went wrong for good. |
| Brackets.ParenBalance | packages/dashboard/src/lint/tsql.ts:159-189 | The same for parentheses. |
| Locator.LineStarts | packages/dashboard/src/lint/diagnostics.ts:37-41 | The table holds exactly the offsets where lines begin. |
| Locator.Locate | packages/dashboard/src/lint/diagnostics.ts:43-54 | The binary search finds the line and column of any offset, clamped into the text. |
| Locator.PositionsAreUnique | packages/dashboard/src/lint/diagnostics.ts:37-55 | Offsets and positions correspond one to one. |
| TsqlMask.Blank | packages/dashboard/src/lint/diagnostics.ts:97-101 | Everything in the range but line breaks becomes a space, nothing else changes. |

## Left out

- SQL Server, gRPC, SQLite, timers, the file system and TLS: tables are sequences and maps, a send is accepted or
  refused by the environment, the clock is a non-decreasing integer.
- The eviction's DELETE may come at any time after an insert in `HistorySync`; the source has nothing but a crash in
  between, so its runs are among the model's.
- SQLite errors and the rollbacks they cause, and power loss that undoes a committed transaction.
- Cryptography: signature verification and SHA-256 are arbitrary functions.
- The gap between `apply` and the idempotency record, which the code documents, and exceptions other than SQL errors:
  a command that never returned from the apply stage is outside `Commands.AppliedAtMostOnce`.
- The definition poll and its hash cache, the agent-log bookmark and activity snapshots. A refused definition change
  is not sent again until the next change, so there is no delivery theorem to state for it.
- The wording of warnings; which warnings are given, and in which order, is modelled.
- `reorderStep` with a NaN slot, where the source splices at an undefined index.
- `updateStep`: a field-by-field replacement that keeps the id.
- JSON text that itself holds an unescaped lone surrogate: the printer never writes one, and such a text is not a text
  for the parser. The strings in it may hold any code units.
- Ids, kinds and instance names of signed commands are whole characters, as in the protobuf messages they come from.
- Rounding to 53 bits when a numeral is read: numbers are exact decimals, in JSON and in dates and times, where only
  overflow to infinity is modelled. A printed number is the shortest decimal of its double and is read back exactly.
- Objects with a property named `__proto__`, which assignment does not store as a property.
- Canonical forms of operators and alerts: the same construction on flatter records.
- `describeSchedule`, whose result is prose.
- The PowerShell mask: its comment rule looks at the character before, so scanning the mask again is not idempotent.
- Regex-based lint rules, log scrubbing, environments, capabilities and roles.
- React pages, routes, telemetry, configuration and installers.

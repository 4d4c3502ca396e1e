# HeartBeat Logger, verified model

A Dafny model of the collector of HeartBeat Logger and proofs about it. The logger
follows the systemd journal from a persisted cursor, polls the state of systemd units,
classifies what it sees, writes events in batches to SQLite, keeps a table of grouped
incidents, prunes by age and size, and rewrites one list in its configuration file.

`dafny verify dfyconfig.toml` checks everything.

## The parts

* **Ingest protocol.** `Pipeline`, `Database`, `Reader` and `Daemon` hold the objects of the
  source as classes; ghost state records the commit log. `Protocol` is the collector as
  a state machine: journal growth, reader, bounded queue, main thread, the two commits
  of a flush, resolution, retention, status upkeep, crashes that keep any prefix of the
  commit log, restarts. `Journal` says what a commit log says about the journal,
  `Delivery` proves what holds in every run, and `MainLoop` proves that the reader's
  sessions, a round of the daemon object and its whole life, from reading the cursor to
  the final flush, are runs of the state machine.
* **Tables as views of history.** `Tables` gives the effect of each SQL statement,
  `EventsTable` proves the events table to hold the row of every event written that no
  later statement removed, `Incidents` the incident table to be an aggregate over them,
  `Retention` what pruning may remove, `Follow` what the command line's log tail prints.
* **Unit monitor.** `Systemctl` parses, `Observer` is the reaction to the snapshots of
  one unit as a function of their history, `Monitor` the object that refines it.
  `Readings` states what is reported in terms of the properties that systemctl shows
  alone, and `Recoveries` follows a recovery from there into the incidents table.
* **Classification.** `Classify` and its matchers, `Patterns` (the matchers against the
  regular expressions they stand for), `Signature` (the grouping key). `Detection` says
  which message texts make which problem, with texts taken apart and no matcher named.
* **Configuration.** `ConfigFile` finds and replaces the list, `Search` is the theory of
  the line-anchored search, `WatchList` the writer. `Toml` is an independent reader for
  documents of the kind the configuration is (TOML v1.0.0), `TomlLaws` its laws,
  `Surgery` what the search finds in such documents, `Printing` what printed names are
  read as, `Rewriting` what a write does to a document, `Loading` and `Scan` the lists
  that are loaded before and after, `Sorting` the order.

The conventions are these: a journal cursor is the index of its entry; time is a real number; a
transaction is the list of statements it commits; the database is the result of
replaying all committed statements on empty tables, and the invariant of the database
object ties its fields to that replay at every moment. Elapsed time, the listing and the
properties that systemctl prints, and the size of the file are parameters.

## Where the code and its documentation part

* The documentation promises a resume with "no gaps and no duplicates"
  (README.md:98-99, README.md:190-192). There are no gaps (`Delivery.NoGapEver`). Duplicates are
  possible, because a flush commits the batch and then the cursor
  (hblog/pipeline.py:49-52): `Delivery.DuplicatesHappen` builds such a run from every
  start whose first entry is watched, and `Delivery.ExactCopies` counts the copies exactly.
* A recovery marker is called informational (hblog/sources/units.py:229-230). It is a
  problem exactly when the error threshold admits notices or the name of the unit
  contains `oom-kill` (`Classify.MarkerIsProblemIff`).
* Numbers are meant to vanish from the signature of an error (hblog/classify.py:130-132).
  `Signature.SignatureIgnoresNumberIff` says exactly where they do;
  `Signature.NumbersCanMatter` names two messages where they do not.
* `scan` writes names between quotes as they are (hblog/config.py:154), so a name with
  a backslash is not read back (`Scan.LoadsBackIff`), and with an escape as systemd
  makes them the file does not load at all (`Scan.EscapedNameBreaksFile`).
* Only the list is to be rewritten, every other key and comment untouched
  (hblog/config.py:97-99). `Rewriting.FrameIff` says exactly when that holds: when the
  brackets between those of the list nest. A bracket in a comment or a string can take the
  rest of the file along: `Rewriting.CommentLosesRest`.
* A second write undoes the first exactly when the brackets in the names nest:
  `WatchList.LastWriterWinsIff`, `WatchList.ServiceNameBreaks`.
* A list that is appended to a file with tables lands in the last of them, where it is not
  loaded (hblog/config.py:188-190): `Scan.LoadsBackIff`, `Scan.TableHidesList`.
* `scan` is to keep obvious noise out of the list, filtering with the exclude list of the
  file or the defaults (hblog/cli.py:248-253). The default is the empty list
  (hblog/config.py:27), so the first scan writes the noise to the list, and the template's
  own exclude list then hides it: `Scan.FirstScanThenWatch`, `Scan.FirstScanListsNoise`.
* The log tail can miss rows: `Follow.PrintedIff`, `Follow.RowsCanBeLost`.

## Model

| member | source | states |
|---|---|---|
| Delivery.NoGapEver | hblog/pipeline.py:27-55 | In every run of the state machine, and for every prefix of the commit log that a power loss may leave, each watched entry from the start to the persisted cursor has been written, classified and otherwise unaltered |
| Delivery.DeliveredIff | hblog/pipeline.py:27-37 | Which entries those are, in every run and for every prefix of the log: of the entries from the start to the persisted cursor, one without a unit is written, and one of a unit is written if and only if no exclude pattern covers the unit and the watch list is empty or covers it |
| Delivery.StoredEver | hblog/db.py:140-163 | And in the table: such an entry has a row in the replayed log, which is there if and only if no later statement of retention removed it, so always in a log without retention |
| Delivery.CopiesBounded | hblog/pipeline.py:46-55 | In every run an entry is written at most 1 + (crashes that kept a batch with it but no cursor commit behind it) times; an unwatched entry never |
| Delivery.ExactCopies | hblog/db.py:140-163 | Exact count in every run: one copy if the persisted cursor covers the entry, plus one for each batch with it whose cursor commit does not follow; a covered entry is there exactly once if and only if there is no such batch |
| Delivery.RestartRepeatsOneBatch | hblog/pipeline.py:36-37 | In every run, for every prefix of the log, so behind every crash: the entries that are written and will be read again are those of one flushed buffer, the watched ones from the persisted cursor up to some point, at most `batch_size` of them. This counts entries of an older, longer batch that a shorter flush has left behind its cursor |
| Delivery.CrashRepeatsOneBatch | hblog/pipeline.py:49-53 | The same for what survived each crash, and its attribution: the entries there that no cursor commit follows are those of one buffer too |
| Delivery.FlushedMeansCovered | hblog/daemon.py:79-83 | In every run, whenever no cursor waits to be committed (after a flush, so at a clean stop) every watched entry taken off the queue lies behind the persisted cursor |
| Delivery.DuplicatesHappen | hblog/pipeline.py:49-52 | From every start whose first entry is watched there is a run that writes the entry twice |
| Protocol.StepInv | hblog/daemon.py:94-137 | Every step of reader, queue, main thread, crash or restart keeps: the queue holds consecutive entries, the buffer holds exactly the watched entries between the persisted cursor and the head of the queue, the waiting cursor is the last of them, and the commit log is well formed |
| MainLoop.RoundIsRun | hblog/daemon.py:94-100 | Whatever a round of the daemon object does (drain, poll, flush, prune) is a sequence of steps of the state machine |
| MainLoop.RoundKeepsGuarantees | hblog/daemon.py:94-100 | So behind a round, from any reachable state, there is still no gap and the bound on copies holds |
| MainLoop.WorkerIsRun | hblog/daemon.py:104-120 | What the reader thread queues over all its sessions is a run of the reader's steps |
| MainLoop.FailureReaches | hblog/daemon.py:121-123 | A failure of the reader with an entry taken but not queued leads back to the same state |
| MainLoop.StartIsRestart | hblog/daemon.py:71-76 | Opening the surviving database and reading the cursor with get_meta is the restart step |
| MainLoop.LifeIsRun | hblog/daemon.py:62-85 | A whole life of the daemon object, arrivals and rounds in any number and then the final flush, is a run of the state machine |
| MainLoop.RestartedLifeIsRun | hblog/daemon.py:62-85 | So is a life that begins with the restart after a crash, with a journal that has grown |
| MainLoop.LifeKeepsGuarantees | hblog/daemon.py:79-85 | At the end of a life, after any history of crashes and earlier lives: no gap in any prefix of the log, copies counted by torn crashes, and every watched entry taken off the queue covered by the cursor |
| Journal.CopiesConserved | hblog/pipeline.py:46-55 | Conservation law for every well-formed commit log and entry: copies = covered (0 or 1) + torn batches |
| Journal.ExactlyOnceIff | hblog/pipeline.py:49-53 | A covered entry has one copy if and only if no batch that wrote it lacks its cursor commit |
| Journal.OneBatchReread | hblog/pipeline.py:46-55 | For every well-formed log: the entries written behind the persisted cursor are the watched ones from it up to some point, at most a batch |
| Journal.OneBatchUnfollowed | hblog/db.py:140-163 | Likewise for the entries written but not followed by a cursor commit |
| Journal.PersistedIsMeta | hblog/db.py:127-136 | The cursor the protocol resumes from is the one the meta table holds after the log |
| Reader.JournalWorker | hblog/daemon.py:104-123 | However often the reader fails, even with an entry read but not queued, the thread queues the entries behind the initial cursor one by one, in order, none twice and none left out; a reader that is not interrupted reaches the end |
| Reader.JournalSource.Open | hblog/sources/journal.py:86-102 | Within one boot, reading resumes behind the cursor's entry; with no cursor, or one that is gone, at the end |
| Reader.JournalSource.Next | hblog/sources/journal.py:104-116 | Entries come in order, each with its cursor, which the source remembers |
| Pipeline.BatchingIsInvisible | hblog/pipeline.py:27-65 | For any batch size and any timed flushes, a final flush leaves events, ids, incidents and statuses as if each watched event had been written on its own, in order of submission |
| Pipeline.CallsConserve | hblog/pipeline.py:27-44 | Between calls, written plus buffered events are exactly the watched submissions, classified, in order; the buffer is shorter than a batch |
| Pipeline.FlushConserves | hblog/pipeline.py:46-55 | A flush moves the buffer to the log, all of it, and loses and adds nothing |
| Pipeline.SubmitMeans | hblog/pipeline.py:27-55 | One submission: nothing for an unwanted unit; an event waits while the buffer is not full; with a full buffer everything that waited is written, in order, and the waiting cursor of the event is persisted last |
| Pipeline.Pipeline.Submit | hblog/pipeline.py:27-37 | The object goes to the specified state: an event of an unwanted unit changes nothing; any other, one without a unit too, is classified in place and joins the stream of written and waiting events, its cursor waits, a full buffer is flushed and the time of the flush taken |
| Pipeline.Pipeline.MaybeFlush | hblog/pipeline.py:39-44 | A flush if and only if the interval has passed; its time is taken if there was anything to flush |
| Pipeline.Pipeline.WriteOut | hblog/pipeline.py:49-54 | Batch commit, then cursor commit, then an empty buffer |
| Pipeline.Pipeline.RunSource | hblog/pipeline.py:57-65 | Afterwards everything watched in the source has been written behind what was buffered, in order, and nothing else |
| Database.Database.WriteBatch | hblog/db.py:140-163 | A batch becomes one transaction; every event of it, problem or not, has a row of its own with the next id behind the old rows, in order; an empty batch does nothing; the tables are those of the whole history |
| EventsTable.AllWrittenIsStored | hblog/db.py:149-161 | For every history without retention of events: the table has as many rows as events were written, and row i is the i-th event with id i |
| EventsTable.StoredIff | hblog/db.py:224-263 | For every history: the row of the n-th event written is in the table if and only if no later statement removed it, by age or as one of the oldest rows (by time, then id) left at that moment; what is left is itself read off the history |
| EventsTable.NothingElseStored | hblog/db.py:149-161 | The table has no other rows |
| Database.Database.UpsertIncident | hblog/db.py:165-181 | The conflict clause: last seen is a maximum, the count grows by one, missing codes keep the old ones, the row is open |
| Incidents.TableIsHistory | hblog/db.py:165-181 | For every history of statements and every key: a row exists iff live events of the key (its unit, its kind and its signature) exist, and then it has their number, first written time, latest time, last exit code and signal present, first event id, and is resolved iff it was resolved and not written since. Live means written since the key was last deleted, where deletion is itself read off the history |
| Incidents.SpansAreOrdered | hblog/db.py:165-181 | An incident never ends before it began, in any order of time stamps |
| Incidents.OpenUntilResolved | hblog/db.py:231-249 | Over any history without a resolution of its key an open incident is neither deleted nor closed by retention or anything else: it keeps its first time, and its count grows by exactly the problems of its key written meanwhile |
| Incidents.NeverResolvedIsForever | hblog/db.py:211-220 | A kind that nothing resolves is never deleted: its row stands for all events of its key ever written |
| Daemon.ErrorIncidentsLastForever | hblog/daemon.py:44 | In any log that daemons wrote, an incident of kind error is open for ever and its count is the number of such events ever written |
| Daemon.RecoveryThenOpenIff | hblog/daemon.py:158-163 | After a poll with a recovery of a unit, an incident of it of any kind but error (crash, failed, oom or restart_loop) is open if and only if a problem with its key was still buffered at the resolution or came later in the poll; with neither, the incidents there were are all there and resolved |
| Daemon.PollRecoveryIff | hblog/daemon.py:141-163 | The same for the poll as a whole, with the recording of its statuses before and its flush behind |
| Recoveries.RecoveredUnitIsResolved | hblog/daemon.py:141-163 | From systemctl to the table, for any memory of the monitor and any pipeline: if a listed, wanted and shown unit is active and was failed at the snapshot before, then behind the poll none of its incidents of any kind but error is open, unless a problem with the same key was waiting in the buffer or came with the poll |
| Daemon.HandledAllConserves | hblog/daemon.py:158-163 | Resolving between submissions loses, adds and reorders nothing that is written |
| Daemon.PollConserves | hblog/daemon.py:150-163 | A poll loses, adds and reorders nothing, and one with events leaves the buffer empty and all of them written |
| Daemon.TurnConserves | hblog/daemon.py:94-100 | Over a whole round: behind what was written or waiting come the wanted events drained, then those of the poll, and nothing else; after a poll with events or a due flush all of it is written |
| Daemon.SkippedCleanupIsSound | hblog/daemon.py:150-157 | Once a watched set is remembered the status table has exactly its units, and cleaning up only on a change gives the same table as cleaning up after every poll that saw a unit |
| Daemon.TableShowsLastPoll | hblog/daemon.py:150-157 | Behind a poll that saw any unit, the status table has exactly the units of that poll, each with its last status |
| Daemon.Daemon.Round | hblog/daemon.py:94-100 | A round drains a prefix of the queue, at least one event if there is any, polls and prunes exactly when due, takes the times of what it did, and leaves the specified pipeline and log; no event waits behind it for longer than the flush interval, and behind a pruning one no event is older than the retention time |
| Daemon.Daemon.DrainQueue | hblog/daemon.py:125-137 | A prefix of the queue is submitted in order |
| Daemon.Daemon.MaybePollUnits | hblog/daemon.py:141-163 | A poll if due: the monitor sees the snapshots, statuses are recorded, stale ones dropped, recoveries resolve before their event is submitted, all is flushed |
| Daemon.Daemon.MaybeMaintain | hblog/daemon.py:167-180 | Retention if due, with the transactions it commits; then no event is older than the retention time, and the file is under the cap or without events |
| Daemon.Daemon.InitialCursor | hblog/daemon.py:71-71 | The cursor to resume from is the one in the replayed meta table |
| Daemon.Daemon.Feed | hblog/daemon.py:114-120 | The reader queues its events in order: all it may unless the queue holds 10000 |
| Daemon.Daemon.Run | hblog/daemon.py:78-85 | Laps of arrivals and rounds, each possible in the state before it, then the final flush |
| Database.Database.Prune | hblog/db.py:224-263 | Terminates whatever size is measured. Exactly the rows from the last `retention_days` times 86400 seconds survive the age limit; then slices of the 1000 oldest go, each only while the file is over `max_db_mb` times 1048576 bytes, until it is not or no event is left; both counts add up; no deleted event is newer than a survivor; incidents go if and only if resolved and last seen before their own limit |
| Database.Database.DropBySize | hblog/db.py:242-255 | The size loop: the rows behind so many slices, each deleted because the file was still over the cap and held rows, even if vacuuming frees nothing |
| Database.SlicesAreOldest | hblog/db.py:242-255 | Slices together delete the oldest rows, as one deletion of as many would |
| Database.Database.PruneServiceStatus | hblog/db.py:197-209 | Keeps exactly the rows of the listed units and counts the others; an empty list deletes nothing |
| Database.Database.ResolveIncidentsForUnit | hblog/db.py:211-220 | One transaction that resolves the unit's incidents of the given kinds |
| Retention.DropOldestKeepsNewest | hblog/db.py:246-249 | A slice removes as many rows as asked or all, and none newer than a survivor |
| Retention.IdsAscend | hblog/db.py:22-22 | In every history the rows of the events table have distinct, ascending ids |
| Follow.NeverTwice | hblog/cli.py:191-204 | Over any number of rounds on a changing database, rows are printed in order of time and none is printed twice |
| Follow.LeftOut | hblog/cli.py:199-201 | A matching row that a round leaves out was cut off by the limit, and it stays eligible if and only if it is a microsecond younger than the last row printed |
| Follow.PrintedIff | hblog/cli.py:191-204 | Over a whole run: a matching row that is in the table of a round, not printed before and not cut by the limit, is printed at some time if and only if it is not older than the bound of that round |
| Follow.RowsCanBeLost | hblog/cli.py:194-201 | A run of two rounds that loses a row: it arrives after a younger one was printed |
| Follow.LateRowIsLost | hblog/cli.py:192-201 | A row that is older than the bound when it arrives is never printed |
| Follow.FollowLogs | hblog/cli.py:191-204 | The loop prints and moves its bound as specified |
| Observer.WindowIsRecount | hblog/sources/units.py:199-212 | With a clock that does not go back, the queue of a unit is, after every poll, exactly the restarts ever seen that lie within the window (`Readings.RestartsAdded` says what those are) |
| Readings.RestartsAdded | hblog/sources/units.py:201-205 | For any history of snapshots: snapshot j adds as many restarts as its NRestarts exceeds that of the snapshot before, each with its own time; none if the one before is missing or unreadable or not smaller; an unreadable NRestarts is 0 |
| Readings.CounterIsCount | hblog/sources/units.py:201-205 | If NRestarts is always readable and never goes back, the restarts ever seen are the last reading minus the first |
| Readings.AlarmIff | hblog/sources/units.py:199-226 | Exactly when the alarm is raised: a restart_loop event comes with a snapshot if and only if the growth of NRestarts within the window reaches the threshold and did not at the snapshot before, or the unit has just recovered; every field of the event, its message with the count and the whole seconds of the window |
| Readings.JumpAlarms | hblog/sources/units.py:203-224 | A jump of the counter by the threshold between two polls raises it at once |
| Readings.SecondsAreTruncated | hblog/sources/units.py:217-218 | The seconds named are the window truncated towards zero |
| Readings.FailureIff | hblog/sources/units.py:160-197 | A failure is reported if and only if ActiveState is "failed" and was not at the snapshot before, with kind, exit code and signal as Result, ExecMainCode and ExecMainStatus tell: oom without either, crash with the code if exited, with the signal if killed or dumped, else failed without either |
| Readings.RecoveryIff | hblog/sources/units.py:155-158 | A recovery is reported if and only if ActiveState is "active" and was "failed" at the snapshot before, first of all events, with every field; all other events are problems |
| Readings.StatusIs | hblog/sources/units.py:129-143 | Every field of the status row; the heartbeat is the time of the last active snapshot, 0 without one |
| Readings.PollCovers | hblog/sources/units.py:118-146 | What a poll reports, for any listing and properties: exactly what is implied by the snapshots of the units that are listed, wanted and shown, each in view of its own history |
| Readings.PollRemembersWhole | hblog/sources/units.py:118-146 | And what it remembers: one snapshot more of each of those units, nothing new of any other |
| Readings.PollStatuses | hblog/sources/units.py:124-143 | Its status rows are those of the polled units that are shown, each unit with one |
| Readings.PollInOrder | hblog/sources/units.py:124-144 | Events and statuses come in the order of the units |
| Readings.ShownReadsBack | hblog/sources/units.py:95-99 | Reading a number inverts showing it |
| Observer.TrimIsFilterIff | hblog/sources/units.py:209-210 | Dropping expired times from the front equals filtering if and only if the expired ones stand first |
| Observer.LoopEventsAreEdges | hblog/sources/units.py:212-226 | A restart-loop event is emitted exactly on a rise over the threshold, where a recovery counts as a fall; the active flag always equals "over the threshold" |
| Observer.LoopEventsAreSeparated | hblog/sources/units.py:155-167 | Between two loop events of a unit lies a poll under the threshold or a recovery |
| Observer.LoopNeedsRestart | hblog/sources/units.py:201-205 | With a positive threshold a loop event outside a recovery needs a restart seen in that poll |
| Observer.LoopEventsBounded | hblog/sources/units.py:199-226 | Over a whole life, loop events are no more than restarts and recoveries together |
| Observer.FailuresAreRuns | hblog/sources/units.py:160-162 | Failure events correspond one to one to the maximal runs of failed snapshots, at their start |
| Observer.RecoveriesEndRuns | hblog/sources/units.py:155-158 | Recovery markers correspond to the maximal failed runs that an active snapshot follows directly |
| Observer.RecoveryFollowsFailure | hblog/sources/units.py:150-169 | Each recovery is preceded by a failure with no recovery in between |
| Observer.AgainIsSilent | hblog/sources/units.py:150-169 | Seeing a snapshot again, at any time, emits nothing |
| Observer.LoopEventsShareKeyIff | hblog/sources/units.py:215-223 | Two restart-loop events of a unit fall into one incident, whatever counts and windows their texts name, if and only if the windows have the same sign or the sign lies behind the cut; so all under one configuration do |
| Observer.OneIncidentIff | hblog/classify.py:134-143 | Two deaths, from journal or monitor, fall into one incident if and only if unit and kind agree and, for crashes, the way of dying; their messages do not matter |
| Observer.ErrorsShareKeyIff | hblog/classify.py:145-148 | Two errors fall into one incident if and only if their units agree and so do the first 80 characters of the normal forms of their messages |
| Monitor.ListedTwice | hblog/sources/units.py:125-144 | A unit listed twice in one poll emits no further event and leaves the monitor as it is |
| Monitor.UnitMonitor.Poll | hblog/sources/units.py:118-146 | A poll returns the events and statuses that the histories of snapshots imply; the dictionaries of the object refine those histories |
| Monitor.UnitMonitor.CheckRestartLoop | hblog/sources/units.py:199-226 | Queue and flag after the check, the event if the flag rose, and no other unit touched; `Readings.AlarmIff` states it on the counters |
| Monitor.UnitMonitor.DetectStateEdges | hblog/sources/units.py:150-162 | Recovery and failure edges; a recovery clears the flag of its unit only |
| Systemctl.ParsingInvertsPrinting | hblog/sources/units.py:57-76 | Parsing the blank-line-separated rendering of blocks with well-formed keys and newline-free values (which may contain `=`) returns the dictionaries by unit |
| Systemctl.LastBlockWins | hblog/sources/units.py:74-76 | Of several blocks for one unit the last one wins |
| Systemctl.DictIs | hblog/sources/units.py:66-70 | Within a block the last value printed for a key is the one returned |
| Systemctl.ParsedUnits | hblog/sources/units.py:57-76 | Exactly the units that some block names are returned |
| Systemctl.ParseShow | hblog/sources/units.py:57-71 | The loop computes the parse that the two laws are about |
| Systemctl.ListedNames | hblog/sources/units.py:79-85 | A listed unit is a service name without blanks and no pattern |
| Systemctl.ListedIff | hblog/sources/units.py:79-85 | Exactly the services that the first column of some line names are listed |
| Systemctl.ListedAppends | hblog/sources/units.py:79-85 | In the order of their lines |
| Patterns.MainExitIs | hblog/classify.py:46-49 | The matcher finds a match exactly when the regular expression has one: the leftmost, with code position, code word and status position each as far right, or as long, as possible in that order |
| Patterns.FailedResultIs | hblog/classify.py:51-53 | Likewise for the result pattern, with its group |
| Classify.Classify | hblog/classify.py:63-74 | The event object is updated in place to its classification, which the laws of `Detection` are about |
| Classify.Detect | hblog/classify.py:77-118 | Detection on the object, step by step; the laws of `Detection` are about the value it computes |
| Detection.KindIff | hblog/classify.py:77-118 | The exact condition on the text of the message for each resulting kind, in the source's order: out of memory, segmentation fault, exit of the main process (no problem if clean), failed result, failed state, and the priority last |
| Detection.MainExitIff | hblog/classify.py:46-49 | If a text in parts is the match of the expression (leftmost, then longest repetitions from left to right), the matcher reports its code word and status |
| Detection.ExitStatusIs | hblog/classify.py:88-104 | A main process that exited with status n has exit code n, keeps its signal, and is a crash if and only if n is not 0; one that was killed or dumped has signal n, keeps its exit code, and is a crash |
| Detection.ExitNameIs | hblog/classify.py:26-39 | With a status that is no number: a crash, with the number of the signal it names, or with neither |
| Detection.OtherTextsKeep | hblog/classify.py:77-118 | No other text carries an exit code; a segmentation fault is signal 11, nothing else carries a signal |
| Detection.ClassifiedDeath | hblog/classify.py:63-74 | Classification changes kind, exit code, signal and signature only, and a kind set by the source wins |
| Detection.SignatureIs | hblog/classify.py:127-148 | Exactly the problems without a signature get one: how the process died, the kind, or the first 80 characters of the normal form |
| Classify.ClassifiedIdempotent | hblog/classify.py:63-74 | Classifying again changes nothing, so an entry read twice has one incident key |
| Classify.MarkerIsProblemIff | hblog/sources/units.py:228-238 | When a recovery marker becomes a problem after all |
| Classify.MarkerCanBeProblem | hblog/sources/units.py:228-238 | A unit whose recovery raises a new problem |
| Signature.SignatureIgnoresNumberIff | hblog/classify.py:145-148 | For all texts before and behind a whole number: the signature of an error is the same for all numbers if and only if a hex literal before swallows it, the text behind is safe, or the first difference lies behind the cut at 80 |
| Signature.NumberIrrelevantIff | hblog/classify.py:145-147 | The same for the normal form before the cut: a hex literal before, or safe text behind |
| Signature.NumbersCanMatter | hblog/classify.py:130-132 | Two messages that differ in a number and get two signatures |
| Signature.NormaliseIdempotent | hblog/classify.py:145-147 | The rewrite before the cut is idempotent |
| Signature.NormaliseIsNormal | hblog/classify.py:145-147 | Its result is lower case, has no digit, only single spaces, and none at either end |
| Signature.CutRenormalises | hblog/classify.py:148-148 | Normalising a signature again drops one trailing space if the cut fell behind one, and nothing else |
| Signature.CrashKeyIff | hblog/classify.py:134-139 | Two crashes have one key if and only if they agree on the signal or, without one, on the exit code |
| ConfigFile.ReplaceWatchUnits | hblog/config.py:158-176 | With a match, the text before it and the text behind the bracket that balances the opening one stay; if nothing balances it the rest goes; without a match nothing changes |
| ConfigFile.CloseBracket | hblog/config.py:164-174 | The scan stops at the first bracket that balances the opening one, or at the end |
| Search.FindSplits | hblog/config.py:147-147 | The search finds the leftmost match at the beginning of a line: what lies before it is whole lines without a match |
| Search.FindBehind | hblog/config.py:147-147 | Behind whole lines without a match the search goes on as if they were not there |
| WatchList.ConfigStore.WriteWatchUnits | hblog/config.py:179-195 | The text left in the file in each of the three cases: list replaced, appended, file created |
| WatchList.AppendedIs | hblog/config.py:188-190 | A file without a list keeps its text but for final newlines, and gets the list behind one blank line |
| WatchList.LastWriterWinsIff | hblog/config.py:158-195 | For any file: writing one list and then another leaves what writing the second alone leaves, if and only if the brackets in the names of the first nest |
| WatchList.LastWriterWins | hblog/config.py:179-195 | In particular for names without brackets |
| WatchList.BracketBreaksRewriting | hblog/config.py:164-174 | Every name with a closing bracket that it does not open is one for which it fails, in every file |
| WatchList.ServiceNameBreaks | hblog/sources/units.py:79-85 | A listing can contain such a name |
| WatchList.HeadIsProper | hblog/config.py:105-118 | A template whose list stands behind lines that neither begin with the key's first letter nor are indented has its list found where it was put |
| Printing.PrintedListReadsIff | hblog/config.py:150-155 | Reading the printed array as TOML returns the list if and only if no name has a quote, a backslash or a control character other than the tab |
| Printing.QuoteFreeListReads | hblog/config.py:150-155 | For names without quotes, what is read in every case: the names with their escapes resolved, or nothing if one has a control character or an escape TOML does not know |
| Surgery.NoTarget | hblog/config.py:147-147 | In a TOML document without an assignment of a list to the key the search finds nothing, also not inside arrays, strings and comments |
| Surgery.FindTarget | hblog/config.py:147-163 | In a document with one the search finds the first: its bracket, the statements of the lines before and those behind |
| Rewriting.FrameIff | hblog/config.py:97-99 | Replacing the list of a document leaves everything before the assignment and behind the array as it is, if and only if the brackets between those of the array, in comments and strings too, nest |
| Rewriting.CommentLosesRest | hblog/config.py:164-176 | A proper file, with a bracket in a comment inside the list, that loses the setting behind the list |
| Rewriting.WrittenReads | hblog/config.py:179-195 | For names without quotes and a list whose brackets nest, the document after a write: the statements before and behind are the old ones, the list has the names read back |
| Scan.LoadsBackIff | hblog/config.py:179-195 | Writing to a file that loads and whose list nests: it then loads with the names written and the exclude list it had, if and only if every name is plain and the list came into the root table (or there is no name) |
| Scan.LoadsDecoded | hblog/config.py:81-91 | For names without quotes: exactly what is loaded, and when nothing is |
| Scan.TableHidesList | hblog/config.py:188-190 | A file with a table and no list, in which the appended list is not loaded |
| Scan.CreatedLoads | hblog/config.py:193-195 | What a first scan creates loads with the names written and the exclude list of the template |
| Scan.WatchedIff | hblog/config.py:60-75 | Under any configuration that watches the survivors of a scan, a unit is watched if and only if it was discovered and neither the scan nor the configuration excludes it |
| Scan.ScanThenWatch | hblog/cli.py:241-268 | With an existing file that loads: after filter, write and load the exclude list is the same, and a unit of any name is watched if and only if it was discovered and is not excluded, given a survivor, plain names, a list that nests and lies in the root table |
| Scan.FirstScanThenWatch | hblog/cli.py:253-268 | With no file: every discovered name is written, and a unit is watched if and only if it was discovered and starts with none of `systemd-`, `user@` and `session-` |
| Scan.FirstScanListsNoise | hblog/cli.py:248-256 | So a discovered `systemd-` unit is on the list of the first scan and is not watched |
| Scan.EscapedNameFails | hblog/config.py:154-155 | A list with a name that has a backslash and an x makes the file unreadable, in every place and whatever follows |
| Scan.EscapedNameBreaksFile | hblog/config.py:81-91 | So an existing file that loaded does not load any more |
| Sorting.SortedSetIs | hblog/config.py:184-184 | `sorted(set(units))`: strictly ascending, with exactly the given names |
| Sorting.LessIff | hblog/config.py:184-184 | The order is that of the first character that differs; a proper prefix comes first |
| Sorting.OrderIsIrrelevant | hblog/sources/units.py:88-92 | Neither order nor repetition of the names given matters |
| Model.AnyMatchIff | hblog/config.py:60-75 | A list of patterns matches a unit if and only if one of them does |
| Model.WatchedIsWanted | hblog/config.py:60-75 | The filter lets through exactly: events without a unit, and units that no exclude pattern covers and the watch list, unless empty, does cover. A pattern covers what starts with the text before its final star, or, without one, itself |

## Left out

- Protocol.StepInv: assumes a valid persisted cursor and one boot. The reader filters by
  boot and falls back to the tail when the cursor is gone or there is none
  (hblog/sources/journal.py:86-102), where the code gives no usable guarantee; the first
  start without a cursor is outside for the same reason. The configuration does not
  change during a run.
- Delivery.CopiesBounded: a copy is counted when its batch is committed; what retention
  deletes later still counts as written.
- Observer.WindowIsRecount: needs a clock that does not go back; with a clock that does,
  expired times can stand behind live ones, and `Observer.TrimIsFilterIff` says exactly
  when that shows.
- Readings.AlarmIff: needs such a clock too.
- Reader.JournalSource.Open: the filter by boot (hblog/sources/journal.py:90) is not modelled.
- Scan.ScanThenWatch: the TOML reader covers comments, table headers with bare names, and
  bare keys with basic strings, arrays of basic strings and bare values. On everything
  else (quoted or dotted keys, literal and multi-line strings, nested arrays, inline
  tables) it fails, and nothing is said about such files. Bare values are not told apart,
  repeated tables and keys repeated inside a table are not refused, and the settings other
  than the two lists are taken to be valid.
- WatchList.LastWriterWins: the template is any text whose head does not assign the key,
  with the exclude list of the original behind the watch list; the rest of its wording is
  not part of the model. Files hold newlines only, no carriage returns.
- Pipeline.Pipeline.Submit: the buffer holds the value of the classified event; that the
  buffer and the caller share one object afterwards is not captured.
- Signature.SignatureIgnoresNumberIff: one whole number at a time, ASCII digits, letters
  and white space only; the same holds for all text functions (`lower`, `strip`, `\d`,
  `\w`, `\s`, `splitlines`).
- Database.Database.Prune: the size of the file is an arbitrary function of the slice
  number and the rows; SQL text, pragmas, pages and vacuuming are not modelled. Rows of
  the same time stamp are deleted by ascending id, where SQL leaves the order open.
- Follow.NeverTwice: the filters of the command line are one arbitrary predicate; the
  real numbers of the model do not round.
- Columns that nothing depends on (pid, boot id, message id, the JSON of `extra`, the id
  of an incident row).
- Python exceptions inside a transaction, in a poll or in maintenance: a crash here is
  the loss of the process.
- Threads, signals, sd_notify, the watchdog and subprocesses; time limits are parameters
  (how many events a drain takes, whether an interval has passed).
- The conversion of native journal entries to events, the mock source and the demo.
- Read-only queries other than that of the log tail, tables, formatting, argument
  parsing and time parsing of the command line.

# Checkpoint throttling in amazon-kinesis-client-go, in Dafny

This project models the two pieces of checkpoint logic of the Go Kinesis
client library's consumer side and proves their properties.

* **The checkpoint manager** (`batchconsumer/checkpointmanager.go`). A
  goroutine receives sequence pairs and one shutdown request. It checkpoints
  the latest pair it has received, but never sooner than `checkpointFreq`
  after the previous checkpoint (or after it started). A shutdown ends any
  wait at once: it flushes the pending pair, shuts the checkpointer down and
  signals done. The goroutine is modelled as a deterministic state machine
  over an integer clock (`CheckpointActor`): its inputs are `Submit`,
  `ShutdownRequest` and `TimerFired`, and its checkpointer is a time-stamped
  log of `Checkpoint(pair)` and `Shutdown` calls followed by the done signal.
  The invariant `Inv` holds in every reachable state, and the lemmas about
  whole runs follow from it. The class `BatchConsumer.CheckpointManager` keeps
  the goroutine's locals as fields. Its methods `Checkpoint`, `Shutdown` and
  `TimerFire` are the inputs, and each is proved to move the object exactly as
  the state machine's `Step` does.
* **The sample record processor** (`cmd/consumer/main.go`). It keeps the
  largest parseable sequence pair of the records it processes. After each
  batch it checkpoints that pair only if strictly more than 60 s have passed
  since the previous checkpoint. It shuts its checkpointer down only for the
  reason `"TERMINATE"`. The class `Consumer.SampleRecordProcessor` holds the
  processor's fields, and its record loop is proved against the function
  `Largest`. `Largest` is proved to compute the maximum of the batch.

`kcl.SequencePair` is not part of this model's sources. It is defined in
`Kcl` from its uses: the sequence number is an unbounded integer or unset
(`None`); the order is lexicographic on (sequence, sub-sequence); `IsNil`
holds exactly for the unset pair. `IsLessThan` returns false when either side
is unset. The only place that could see this choice is `shouldUpdateSequence`,
and there it is guarded by `IsNil`. `big.Int.SetString(s, 10)` is replaced by
`Decimal.Parse`: an optional sign and one or more decimal digits.

Times are integers: nanoseconds, as Go's `time.Duration`, for the
processor's 60 s default; the example lemmas count in milliseconds. Inputs to
the checkpoint manager arrive at non-decreasing times. Two `time.Now()` calls
made without an input between them read the same instant.

Three behaviours of the code are easy to misread. The model follows the code
in each case:

* The comment at `batchconsumer/checkpointmanager.go:58-59` says the latest
  pair is always used. That includes an unset pair: an unset pair submitted
  during the wait replaces the pending pair, so a shutdown after it
  checkpoints nothing, and the earlier pair is lost
  (`SubmitUnsetMakesNoCall`). If the last submission before shutdown is set,
  it is always flushed (`LastSubmittedPairFlushed`).
* One might expect an unset pair to compare below every position. In the
  code this holds only through the `IsNil()` guard of `shouldUpdateSequence`
  (`ShouldUpdateSequence`'s first clause).
* `lastCheckpoint := time.Now()` runs when the goroutine starts
  (`batchconsumer/checkpointmanager.go:47`), so the throttle window starts with
  the goroutine and even the first submission waits a full interval. A submission
  at time 0 is checkpointed at once only if the manager started at least one
  interval earlier (`ThrottleExample`, with a start at -2 s). Started at 0,
  the same inputs give a single checkpoint (`ThrottleExampleFromStart`).

## Model

| member | source | states |
|---|---|---|
| Kcl.SequencePair.IsNil | batchconsumer/checkpointmanager.go:68 | the unset pair has no sequence number, which is not the same as sequence number 0 |
| Kcl.SequencePair.IsLessThan | cmd/consumer/main.go:52 | lexicographic on (sequence, sub-sequence): only set pairs compare, the sequence number decides first, and the sub-sequence decides equal sequence numbers |
| Kcl.OrderIsStrictTotal | cmd/consumer/main.go:52 | on set pairs, `IsLessThan` is irreflexive, asymmetric, transitive and total |
| Kcl.UnsetIsIncomparable | cmd/consumer/main.go:52 | records the modelling choice: an unset pair is neither less nor greater than any pair |
| Decimal.ParseUnsigned | cmd/consumer/main.go:57-58 | a digit string parses exactly when it is non-empty and all digits, to a non-negative value |
| Decimal.Parse | cmd/consumer/main.go:57-58 | the empty string does not parse; the sign decides the sign of the result |
| Decimal.FormatUnsigned | cmd/consumer/main.go:57-58 | formatting gives a non-empty digit string whose value is the number |
| Decimal.ParseFormat | cmd/consumer/main.go:57-58 | parsing a formatted number returns it |
| Decimal.ParseRejectsNonDigit | cmd/consumer/main.go:58-61 | a non-digit after the first character makes the parse fail |
| CheckpointActor.Init | batchconsumer/checkpointmanager.go:47 | the freshly started goroutine is idle with an empty log, its window starts at the start time, and it satisfies the invariant |
| CheckpointActor.Step | batchconsumer/checkpointmanager.go:49-66 | an input only extends the log, keeps the interval and start, moves the clock to the input's time, restarts the window only at that time, and terminates exactly on shutdown |
| CheckpointActor.Finish | batchconsumer/checkpointmanager.go:68-78 | after the wait: a `Checkpoint` of the pair is appended exactly when the pair is set, restarting the window; then the `Shutdown` call and the done signal are appended and the goroutine terminates, or it goes back to idle with the pair reset |
| CheckpointActor.StepInv | batchconsumer/checkpointmanager.go:49-78 | every input keeps the invariant: only set pairs checkpointed, checkpoints spaced by the interval except one made at the same instant as, and immediately before, the shutdown call, shutdown and done last, log in time order |
| CheckpointActor.RunInv | batchconsumer/checkpointmanager.go:49-79 | every run keeps the invariant and the configuration |
| CheckpointActor.RunShaped | batchconsumer/checkpointmanager.go:49-78 | every run from a reachable state leaves a log of checkpoints, followed by the shutdown call and the done signal exactly when terminated |
| CheckpointActor.CommitsAtLeastFreqApart | batchconsumer/checkpointmanager.go:60-70 | two consecutive checkpoints are at least `checkpointFreq` apart unless the later one is made at the same instant as, and immediately before, the shutdown call |
| CheckpointActor.FirstCommitWaitsForWindow | batchconsumer/checkpointmanager.go:47-70 | the first checkpoint that is not made at the same instant as, and immediately before, the shutdown call comes at least `checkpointFreq` after the start |
| CheckpointActor.NoUnsetCommitted | batchconsumer/checkpointmanager.go:68-72 | the checkpointer is never called with an unset pair |
| CheckpointActor.ShutdownHandshake | batchconsumer/checkpointmanager.go:68-78 | once terminated, the log ends with exactly one shutdown call then the done signal, all else checkpoints; before that, neither appears |
| CheckpointActor.NothingAfterShutdown | batchconsumer/checkpointmanager.go:74-78 | records the modelling choice: after terminating, no input is accepted |
| CheckpointActor.SubmitAfterWindowCommits | batchconsumer/checkpointmanager.go:54-70 | a set pair submitted after the window, idle or waiting, is checkpointed at once, restarts the window and leaves the goroutine idle |
| CheckpointActor.SubmitInWindowWaits | batchconsumer/checkpointmanager.go:54-62 | a pair submitted inside the window replaces the pending pair and makes no call |
| CheckpointActor.SubmitUnsetMakesNoCall | batchconsumer/checkpointmanager.go:51-72 | an unset submission makes no call, keeps the window and leaves the pending pair unset |
| CheckpointActor.ShutdownWhileWaitingFlushes | batchconsumer/checkpointmanager.go:60-78 | a shutdown during the wait ends it, checkpoints the pending pair if set, then shuts down and signals done |
| CheckpointActor.ShutdownWhileIdle | batchconsumer/checkpointmanager.go:50-78 | a shutdown while idle makes no checkpoint, only the shutdown call and the done signal |
| CheckpointActor.TimerAtDeadlineCommits | batchconsumer/checkpointmanager.go:64-72 | the timer at the window's end checkpoints the pending pair if set and returns to idle |
| CheckpointActor.LatestValueWins | batchconsumer/checkpointmanager.go:60-66 | a burst of submissions inside the window makes no call and leaves the last one pending |
| CheckpointActor.BurstCommitsLastPair | batchconsumer/checkpointmanager.go:60-72 | a burst followed by the timer checkpoints exactly the last pair; the superseded ones never |
| CheckpointActor.LastSubmittedPairFlushed | batchconsumer/checkpointmanager.go:60-78 | when the last submission of a run from the start carries a set pair and the run ends in shutdown, that pair is the last checkpoint, made immediately before the shutdown call |
| CheckpointActor.ThrottleExample | batchconsumer/checkpointmanager.go:47-78 | in milliseconds, with the manager started at -2 s and a 2 s interval: pairs 10, 20, 30 at 0, 0.5 s, 1 s and the timer at 2 s checkpoint exactly 10 at 0 and 30 at 2 s |
| CheckpointActor.ThrottleExampleFromStart | batchconsumer/checkpointmanager.go:47-78 | the same inputs with the manager started at 0 checkpoint only 30, at 2 s, because the window starts with the manager |
| BatchConsumer.CheckpointManager.constructor | batchconsumer/checkpointmanager.go:18-29 | the manager starts idle, with the window starting now and no calls made |
| BatchConsumer.CheckpointManager.Finish | batchconsumer/checkpointmanager.go:68-78 | the code after the wait loop moves the object as the state machine's `Finish` |
| BatchConsumer.CheckpointManager.Checkpoint | batchconsumer/checkpointmanager.go:31-72 | a submission keeps the invariant and moves the object as `Step` does; an unset pair makes no call |
| BatchConsumer.CheckpointManager.Shutdown | batchconsumer/checkpointmanager.go:35-78 | a shutdown keeps the invariant, moves the object as `Step` does and ends with the shutdown call and done |
| BatchConsumer.CheckpointManager.TimerFire | batchconsumer/checkpointmanager.go:60-72 | the timer keeps the invariant and moves the object as `Step` does |
| Consumer.ShouldUpdateSequence | cmd/consumer/main.go:51-53 | true when the largest pair is unset, and otherwise exactly when the new set pair is not at most the largest |
| Consumer.Parsed | cmd/consumer/main.go:57-62 | a record yields a set pair exactly when its sequence number parses, carrying the parsed sequence number and its sub-sequence number |
| Consumer.Track | cmd/consumer/main.go:57-65 | one loop iteration keeps the larger of the largest pair and the record's parsed pair, and leaves the largest pair unchanged when the parse fails |
| Consumer.Largest | cmd/consumer/main.go:56-65 | the record loop never moves a set largest pair to a smaller one |
| Consumer.UnparseableRecordSkipped | cmd/consumer/main.go:58-61 | a record whose sequence number does not parse leaves the largest pair unchanged |
| Consumer.LargestIsMaximum | cmd/consumer/main.go:56-65 | after the loop, the largest pair is at least its previous value and every parsed pair, and is one of them |
| Consumer.LargestSetOnceSeen | cmd/consumer/main.go:52-64 | the largest pair is set once a set pair was held or parsed, and stays unset otherwise |
| Consumer.FirstParsedBecomesLargest | cmd/consumer/main.go:52-64 | starting unset, the first parseable record becomes the largest pair |
| Consumer.SampleRecordProcessor.constructor | cmd/consumer/main.go:24-29 | a new processor has a 60 s interval, an unset largest pair and no checkpointer |
| Consumer.SampleRecordProcessor.Initialize | cmd/consumer/main.go:31-49 | the interval starts now and the checkpointer is stored |
| Consumer.SampleRecordProcessor.ProcessRecords | cmd/consumer/main.go:55-89 | the largest pair becomes `Largest` of the batch; one checkpoint of it, set or not, exactly when strictly more than the interval has passed, which restarts the interval |
| Consumer.SampleRecordProcessor.Shutdown | cmd/consumer/main.go:91-107 | the checkpointer is shut down exactly when the reason is `"TERMINATE"` |

## Left out

- Goroutines, channels and `time.NewTimer`: the rendezvous sends are method calls, and the timer is the input `TimerFired`. The timer is not forced to fire at the window's end; the wait loop's guard is evaluated again whenever it fires.
- The done channel returned by `checkpointManager.Shutdown`: its signal is the last log entry.
- The `stats.Counter` metric for each checkpoint.
- The checkpointer's internals (retries, persistence, the line protocol): it is a recorded call log.
- The log file, log writes, `Sync`/`Close`, `os.Getpid` and the `shardID` argument of `Initialize`, which only names the log file. The `checkpointer` argument of `Initialize` is represented by the flag that one is stored.
- Base64 decoding of the record data and its panic: the data is only logged.
- Consumer.SampleRecordProcessor.ProcessRecords: requires that Initialize has stored a checkpointer, because the kcl protocol calls Initialize first. Called earlier in Go, the branch at `cmd/consumer/main.go:83` is always taken, since `lastCheckpoint` is the zero time, and the call on the nil checkpointer panics; the model leaves that panic out.
- Consumer.SampleRecordProcessor.Shutdown: for the reason `"TERMINATE"` it has the same requirement, for the same reason.
- The exact syntax accepted by `big.Int.SetString`: `Decimal.Parse` stands in for it.
- `main` and `kcl.New(...).Run()`: process bootstrap.
- CheckpointActor.CommitsAtLeastFreqApart: it exempts a checkpoint made immediately before the shutdown call at the same instant. That is a flush, or a regular checkpoint coinciding with a shutdown received while idle, which the code does space by the interval.
- CheckpointActor.FirstCommitWaitsForWindow: it has the same exemption.

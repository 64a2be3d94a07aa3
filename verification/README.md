# Proofs about the interrogation system's audio pipeline

This project states, in Dafny, what a long recording and a live interview may rely on, and
proves it of a model of the code. `dafny verify dfyconfig.toml` checks all of it.

The largest part is the MOSS long-audio worker: a recording is planned as overlapping windows
(`Windowing`, `RetriedPlans` after retries), every job lives in files that are replaced one at a time (`Spool`), and a
scheduler thread works on it while other threads submit, cancel and resume (`Scheduling`,
`Supervisor`). `Scheduling` is the state machine of every interleaving, with process death
between any two file writes; `Supervisor` is the object itself, whose methods append the steps
they take to a history that is a run of that machine, so that what holds of all runs holds of
the object. The text of each window is parsed (`Scanner`, `Parser`) after a policy accepted it
(`GenerationPolicy`); speakers are carried from window to window (`Matching`, `Assignment`,
`SpeakerRemap`, `Labels`) and adjacent windows are merged (`Merger`); `SpeakerHistory` and
`Recording` say what that gives over all windows of a recording, `SecondConflicts` what exactly the
transcript can lose, `ShortWindows` a recording that loses it, and `Pipeline` joins the scheduler to it. `LostCancel` is about the one way to lose a cancel.
`AudioTokens` shows that planning counts what execution builds.

Beside it stand six smaller parts: the browser's resampler (`Resampler`), its outbox for formal
audio (`Outbox` as a protocol, `BrowserAsrCapture` as the classes that take its steps), the
streaming session's slices (`SessionClock` for positions, `SpeechSession` for bytes), the
speaker-turn splitter (`TurnSplitter`), the fragment history (`Lineage`) and the speaker
calibration search (`Calibration`). `Sorting`, `Sets`, `Arithmetic`, `Segments` and `Wrappers`
hold what several parts share.

Code that updates state in place is modelled by classes and loops, and each of their methods is
tied to a function or a state machine about which the properties are proved. Times are integers
of milliseconds; scores, similarities, audio samples and decimal timestamps are real numbers.
Text normalisation, text similarity, the tokenizer, embeddings and their cosine are parameters.
Random identifiers are fresh values, and hashes are compared as values.

One consequence is easily overlooked: labels have no gaps, so a speaker who is silent for one whole
window returns under a new label (`SpeakerHistory.LabelsHaveNoGaps`).

Where the code does not do what its comments or documentation say, the model follows the code
and the exact condition is proved:

- A cancel can be lost: when somebody resumes a job before its own submit has returned, submit
  then replaces the cancel event, and the job may complete (`LostCancel.PrematureCancelLostIff`). Without
  such a cancel, cancellation is final (`Scheduling.CancelledNeverCompletes`).
- Merging "without hiding disagreements" keeps one alternate. Over the windows of a plan, retried or
  not, nothing but duplicates is missing from the transcript if and only if no second conflict
  overwrites an alternate (`SecondConflicts.RecordingCompleteIff`); that needs a window as short as
  its two overlaps (`Recording.LongWindowsKeepAll`), and it happens (`ShortWindows.LosesAnUtterance`).
  A merge by itself also loses an alternate together with a duplicate (`Merger.NoSpeechLost`,
  `ShortWindows.DuplicateLoses`), but no run over parsed results comes to that
  (`SecondConflicts.OnlySecondConflictsLose`).
- A dropped utterance leaves the session's pre-roll position behind; the next utterance, if it
  starts before more audio arrives and before the end of the stream, is sent shifted
  (`SessionClock.MisplacedIff`, `SpeechSession.CollapseMovesTheNext`).
- "Every produced turn must reach min_turn_ms" holds exactly up to two hops, or where no cosine is a
  dip (`TurnSplitter.TurnsReachMinimum`, `TurnSplitter.ShortTurnExists`, `TurnSplitter.NoDipNoCut`).
- The outbox uses a sequence again when a frame is deleted before its cursor was saved, and the
  recovery of a capture deletes without saving (`Outbox.ReuseIff`,
  `Outbox.InterruptedRecoveryIff`, `Outbox.RecoveryReuseReachable`).

The main results are:

- `Scheduling.ReachableGood`, `Scheduling.JobGuarantees`, `Scheduling.EvidenceIsPermanent`,
  `Scheduling.CancelledNeverCompletes`, `LostCancel.PrematureCancelLostIff`,
  `Supervisor.MossSupervisor.RunJob`, `Supervisor.MossSupervisor.RunPending`,
  `Supervisor.MossSupervisor.HistoryIsSafe`,
  `Spool.CrashConsistency`, `Windowing.PlanCovers`
- `Assignment.BestAssignment`, `Matching.ChosenNearOptimal`, `SpeakerRemap.CarriedOnEvidence`,
  `SpeakerHistory.RemappingTheRecording`, `SpeakerHistory.LabelsHaveNoGaps`
- `Merger.SpeechConserved`, `SecondConflicts.RecordingCompleteIff`, `Recording.LongWindowsKeepAll`,
  `ShortWindows.LosesAnUtterance`, `Pipeline.MergedFileCompleteIff`, `Pipeline.InterruptedMergeRepeats`
- `GenerationPolicy.ClassifierAndParserAgree`, `Parser.ScanTiles`, `Parser.ParseGeneration`,
  `Pipeline.ParsedResultsFit`, `AudioTokens.PlannedWindowRuns`
- `SessionClock.MisplacedIff`, `SpeechSession.SpeechSession.PushPcm`, `Outbox.NothingIsLost`,
  `Outbox.InterruptedRecoveryIff`, `Resampler.ResampleChunks`
- `TurnSplitter.TurnsReachMinimum`, `Lineage.InterrogationStore.ConnectLineage`,
  `Calibration.ChooseCalibration`

## Model

The main results come first; the rows after them follow the modules.

| member | source | states |
|---|---|---|
| Scheduling.ReachableGood | linux/backend/moss_worker/supervisor.py:350-424 | In every reachable state evidence is intact, plans cover, the attempt bound holds and COMPLETED means that every window is done and that the merged segments were saved after that |
| Scheduling.JobGuarantees | linux/backend/moss_worker/supervisor.py:350-424 | In every reachable state each job has its windows inside and covering the recording, DONE windows still planned with their interval, at most 3n+1 identities, and is transcribed after its last window if COMPLETED |
| Scheduling.EvidenceIsPermanent | linux/backend/moss_worker/supervisor.py:173-197 | From any state of a run to any later one, terminal snapshots, finished attempts with their raw text, and completed jobs do not change |
| Scheduling.CancelledNeverCompletes | linux/backend/moss_worker/supervisor.py:282-290 | Once cancel has returned on a job that had not ended, no continuation of the run makes it COMPLETED |
| LostCancel.PrematureCancelLostIff | linux/backend/moss_worker/supervisor.py:238-242 | The exception: after a cancel between a resume and the return of submit some continuation completes the job if and only if every failed window planned at that moment can still be retried |
| Supervisor.MossSupervisor.RunJob | linux/backend/moss_worker/supervisor.py:350-424 | The job loop terminates whatever the child answers. A run that does not raise leaves the job CANCELLED only with its event raised, FAILED only for a failed window that may not be replaced and with the error of that window, and COMPLETED only with every window done and merged and no event raised; an event raised before it starts, after submit has returned, ends it CANCELLED. On a reliable disk with a dependable child it raises only where another thread has ended the job as cancelled or where merging the finished windows raises |
| Supervisor.MossSupervisor.RunPending | linux/backend/moss_worker/supervisor.py:324-348 | The queue is drained and nothing stays active; on a reliable disk with a dependable child every job that waited in the queue has ended |
| Supervisor.MossSupervisor.HistoryIsSafe | linux/backend/moss_worker/supervisor.py:140-436 | At every step of the object's history, between file writes too, the guarantees of the state machine hold |
| Spool.CrashConsistency | linux/backend/moss_worker/storage.py:146-200 | Whatever prefix of the permitted writes reached the disk, every DONE or FAILED checkpoint has its raw text, and what an earlier prefix committed is unchanged |
| Windowing.PlanCovers | linux/backend/moss_worker/windowing.py:54-73 | Every instant of the recording lies in a planned window |
| Assignment.BestAssignment | linux/backend/moss_worker/speaker_remap.py:113-122 | The chosen assignment is injective, maximises total confidence over all partial one-to-one maps, and is the first enumerated that does |
| Matching.ChosenNearOptimal | linux/backend/moss_worker/speaker_remap.py:48-63 | For the real candidates: every one left out is blocked by a better one, and the total is at least half of the best |
| SpeakerRemap.CarriedOnEvidence | linux/backend/moss_worker/speaker_remap.py:123-131 | No label is carried on without an utterance of that label and one of the local speaker that agree in time and text |
| SpeakerHistory.RemappingTheRecording | linux/backend/moss_worker/supervisor.py:426-433 | Mapping the recording again from the speaker state that a complete run saved gives the same labels for every segment |
| SpeakerHistory.LabelsHaveNoGaps | linux/backend/moss_worker/supervisor.py:426-433 | A label heard in two windows of a new recording is heard in every window between them |
| Merger.SpeechConserved | linux/backend/moss_worker/merger.py:8-35 | Each input utterance is exactly once in the output, an alternate, a dropped duplicate or a lost alternate |
| SecondConflicts.RecordingCompleteIff | linux/backend/moss_worker/supervisor.py:426-436 | The exact condition for the transcript: nothing but duplicates is missing if and only if no second conflict is decided along the way |
| Recording.LongWindowsKeepAll | linux/backend/moss_worker/windowing.py:54-102 | On the windows of a plan, retried or not, nothing is lost unless one inside the recording is as short as its two overlaps |
| ShortWindows.LosesAnUtterance | linux/backend/moss_worker/supervisor.py:426-436 | On parsed results of a planned recording of 68 minutes a new remapper is never refused, and the transcript that the merge loop returns mentions one utterance neither as a segment nor as an alternate, although it was said once and was not dropped as a duplicate |
| Pipeline.MergedFileCompleteIff | linux/backend/moss_worker/supervisor.py:426-436 | On the windows of any plan the merged file of a job mapped for the first time lacks nothing but duplicates if and only if no second conflict was decided |
| Pipeline.InterruptedMergeRepeats | linux/backend/moss_worker/supervisor.py:426-436 | A merge interrupted after it saved the speaker state, when that file reads back, is not refused when repeated and writes the same merged segments |
| GenerationPolicy.ClassifierAndParserAgree | linux/backend/moss_worker/generation_policy.py:14-49 | For accepted text the parser is complete with the same turns, times and texts if and only if every turn starts in the window and ends within ten milliseconds after it |
| Parser.ScanTiles | linux/backend/moss_worker/parser.py:71-128 | The text is white space, accepted stretches and at most one trailing fragment |
| Parser.ParseGeneration | linux/backend/moss_worker/parser.py:46-128 | Refuses exactly windows with unordered bounds; every segment says what the grammar reads at its place: who speaks, the words, both times, its identifier, and nothing that is not known yet; what is left unread is kept word for word with its reason |
| Pipeline.ParsedResultsFit | linux/backend/moss_worker/parser.py:46-128 | Whatever the model generates, the parsed results of windows with their own identities are what the remapper and the theorems about merging demand |
| AudioTokens.PlannedWindowRuns | linux/backend/moss_worker/embedding_builder.py:148-171 | Every planned window is readable, and its built input has the length that admitted it and fits |
| SessionClock.MisplacedIff | linux/backend/speech_worker/session.py:190-299 | Over a whole session every utterance carries exactly the stream from its announced capture start to its end, if and only if the watch on the segments reported by the detector never alarms |
| SpeechSession.SpeechSession.PushPcm | linux/backend/speech_worker/session.py:121-153 | The whole call: refused after the end or for odd lengths, else one more input of the session whose events are those of the machine; without an alarm of the watch every final event carries exactly the stream from the announced capture start to its end |
| Outbox.NothingIsLost | webapp/src/audio/browserAsrCapture.ts:787-902 | Deleted frames followed by pending ones are all that was appended, contiguous in sequence and samples; the server holds every deleted one; a reload resumes at the end |
| Outbox.InterruptedRecoveryIff | webapp/src/audio/browserAsrCapture.ts:404-431 | A recovery that stops after any number of deletions resumes at the end if and only if a frame is left or the cursor was already saved there; otherwise the last sequence is used again |
| Resampler.ResampleChunks | webapp/src/audio/browserVoiceprintCapture.ts:81-115 | However a signal is split, the joined outputs are those of one call; each encodes the mix of the two samples it lies between, in proportion of how near they are, and where the samples lie on a line so do the outputs |
| TurnSplitter.TurnsReachMinimum | linux/backend/speech_worker/speaker_turn_splitter.py:247-265 | Every turn reaches the minimum when that is at most two hops |
| Lineage.InterrogationStore.ConnectLineage | webapp/src/stores/interrogation.ts:414-429 | After any link two fragments share a group exactly when links connect them, and the maps are inverse |
| Calibration.ChooseCalibration | scripts/ci/rk3588-speech-calibrate.py:208-231 | Fails if and only if there are no samples or no pair in the unit square is safe; otherwise returns a safe grid pair that no safe grid pair beats, and which is at least two thirds as robust as any safe pair of the unit square |
| Windowing.Select | linux/backend/moss_worker/windowing.py:41-51 | The search that skips an already rejected end finds exactly the first tier that fits, and fails exactly when no tier fits |
| Windowing.PlanWindows | linux/backend/moss_worker/windowing.py:54-73 | A returned plan is the ladder and reaches the end of the recording; a rejection comes only where neither tier fits |
| Windowing.PlanShape | linux/backend/moss_worker/windowing.py:54-73 | Every planned window is non-empty, inside the recording, within its tier, in budget, and starts two minutes before the end of the one before it |
| Windowing.LadderUnique | linux/backend/moss_worker/windowing.py:41-73 | Two plans of one duration and counter agree window by window |
| Windowing.StuckHasNoPlan | linux/backend/moss_worker/windowing.py:41-73 | Where planning is rejected no plan of that kind exists |
| Windowing.PlanRetryWindows | linux/backend/moss_worker/windowing.py:76-102 | A ten-minute window becomes the eight-minute ladder over exactly its interval, at most two windows, all in budget; retry is exhausted exactly at the lowest tier; a rejection names a window of the next tier that does not fit |
| Windowing.RetryReplaces | linux/backend/moss_worker/windowing.py:90-102 | The eight-minute ladder of a retry stays inside the failed interval and covers every instant of it |
| RetriedPlans.PlansAreChains | linux/backend/moss_worker/supervisor.py:381-391 | Every plan of a recording, after any retries, is a chain: neighbours share exactly two minutes, and every window but the last is a whole number of overlaps long, at least two |
| RetriedPlans.NeighboursOnly | linux/backend/moss_worker/windowing.py:54-102 | Windows of such a plan that are not neighbours share at most one instant, the border of both |
| RetriedPlans.MeetIff | linux/backend/moss_worker/windowing.py:54-102 | Three windows share an instant if and only if one inside the recording is as short as its two overlaps |
| RetriedPlans.RetryLeavesShort | linux/backend/moss_worker/windowing.py:76-102 | A ten-minute window inside the recording that goes down a tier leaves such a short one |
| Spool.WriteKeepsIntact | linux/backend/moss_worker/storage.py:32-46 | One permitted file replacement keeps all evidence and everything that completed jobs hold, on the whole disk |
| Spool.MossSpool.constructor | linux/backend/moss_worker/storage.py:77-80 | A new store is empty |
| Spool.MossSpool.EveryInstantIntact | linux/backend/moss_worker/storage.py:140-267 | Every state the disk was ever in is intact, and nothing final in it has been lost since |
| Spool.MossSpool.Put | linux/backend/moss_worker/storage.py:32-46 | One atomic replacement: it lands or the disk is as before, and success means that it landed, and on a reliable disk it succeeds |
| Spool.MossSpool.LoadJob | linux/backend/moss_worker/storage.py:132-138 | A loaded snapshot is the one on disk |
| Spool.MossSpool.LoadWindowResults | linux/backend/moss_worker/storage.py:226-244 | Returns all checkpoints; on an intact disk the integrity checks never reject what the store wrote |
| Spool.MossSpool.SaveJob | linux/backend/moss_worker/storage.py:146-168 | Plan first, then job.json: the disk after none, one or both replacements, and success only after all; on a reliable disk every snapshot and plan that may be saved is |
| Spool.MossSpool.SaveWindowResult | linux/backend/moss_worker/storage.py:189-200 | Raw text first, then the checkpoint, only for the planned interval and never over a finished attempt; on a reliable disk every such result is saved |
| Spool.MossSpool.SaveDerived | linux/backend/moss_worker/storage.py:217-267 | Derived files change one at a time and never on a completed job |
| Spool.MossSpool.CreateJob | linux/backend/moss_worker/storage.py:100-124 | The directory and then job.json, as far as they were written |
| Scheduling.NewFilesScheduled | linux/backend/moss_worker/supervisor.py:220-242 | A new job is covered, intact and within its attempt budget |
| Scheduling.ReplanCovers | linux/backend/moss_worker/supervisor.py:389-391 | Replacing one window by windows over its interval keeps the recording covered |
| Scheduling.RetryGood | linux/backend/moss_worker/supervisor.py:368-388 | Both kinds of retry stay inside the recording and cover the failed interval |
| Scheduling.ReplanScheduled | linux/backend/moss_worker/supervisor.py:368-392 | A retry keeps coverage and the bound of 3n+1 identities |
| Scheduling.ActionKeepsGood | linux/backend/moss_worker/supervisor.py:173-436 | Every step of every thread, process death and recovery included, keeps the invariant of the machine |
| Scheduling.SnapshotWrites | linux/backend/moss_worker/supervisor.py:266-302 | Every snapshot written over another is a legal transition out of a non-terminal state |
| Scheduling.ProgressMeansCompleted | linux/backend/moss_worker/supervisor.py:292-302 | In every reachable state the progress of a job is one if it is COMPLETED and zero otherwise |
| Scheduling.RequestIsKept | linux/backend/moss_worker/supervisor.py:292-302 | From any moment of any run on, a durable cancel request stays until the job has ended, restarts included |
| Scheduling.CancelCall | linux/backend/moss_worker/supervisor.py:282-290 | cancel leaves the durable request with a raised event, or ends a job that is not running |
| Scheduling.ActionKeepsCancel | linux/backend/moss_worker/supervisor.py:173-424 | The cancellation invariant survives every step, restarts included |
| Scheduling.CancelReachable | linux/backend/moss_worker/supervisor.py:173-424 | The cancellation invariant holds of every run in which nobody cancels at a premature moment |
| LostCancel.CompletableCompletes | linux/backend/moss_worker/supervisor.py:355-424 | If every failed window can be retried, then retries, attempts and the transcript lead to COMPLETED although the job was cancelled at a premature moment |
| LostCancel.StuckNeverCompletes | linux/backend/moss_worker/supervisor.py:367-388 | A failed window that cannot be retried keeps its job from ever completing, whatever happens |
| Scheduling.PrematureMomentReachable | linux/backend/moss_worker/supervisor.py:220-280 | A moment at which a cancel can be lost is reachable |
| Supervisor.LadderCoversRecording | linux/backend/moss_worker/supervisor.py:228-229 | The numbered initial plan covers the recording |
| Supervisor.QuietKeepsWork | linux/backend/moss_worker/supervisor.py:266-290 | Calls of other threads change snapshots, never the recorded work of the running job |
| Supervisor.CreationRun | linux/backend/moss_worker/supervisor.py:220-242 | Creating a job, as far as its files were written, is a run of the state machine |
| Supervisor.ReplanRun | linux/backend/moss_worker/supervisor.py:389-391 | Replacing a window, as far as its files were written, is a run of the state machine |
| Supervisor.AttemptRun | linux/backend/moss_worker/supervisor.py:419-419 | Recording an attempt, as far as its files were written, is a run of the state machine |
| Supervisor.ReplanProgress | linux/backend/moss_worker/supervisor.py:389-392 | A retry makes that measure smaller |
| Supervisor.EarliestPending | linux/backend/moss_worker/supervisor.py:359-366 | None exactly when every planned window is done, else the pending window that starts earliest, by name among those that start together |
| Supervisor.MossSupervisor.constructor | linux/backend/moss_worker/supervisor.py:147-197 | The startup scan over any spool that an earlier process left is a run, queues nothing and starts no child; on a reliable disk every job with a snapshot has ended or is RECOVERY_REQUIRED afterwards |
| Supervisor.MossSupervisor.RecoverJob | linux/backend/moss_worker/supervisor.py:185-197 | A job that could be read and written has ended or is RECOVERY_REQUIRED afterwards; one that was so already is not written; on a reliable disk none is left out |
| Supervisor.MossSupervisor.CancelJob | linux/backend/moss_worker/supervisor.py:282-290 | A returned cancel has the request or CANCELLED on disk; on a reliable disk the call returns for every existing job |
| Supervisor.MossSupervisor.RequestCancel | linux/backend/moss_worker/supervisor.py:287-290 | The event is raised before the snapshot is written |
| Supervisor.MossSupervisor.ResumeJob | linux/backend/moss_worker/supervisor.py:266-280 | An ended job is left as it is, one with a cancel request ends, and any other is appended with a fresh event unless it is queued or active |
| Supervisor.MossSupervisor.CreateJob | linux/backend/moss_worker/supervisor.py:220-238 | Plan and files of a new job; only a new identity; on a reliable disk it succeeds for every duration that has a plan |
| Supervisor.MossSupervisor.WriteJob | linux/backend/moss_worker/supervisor.py:230-238 | The job exists on success and is waiting to be queued |
| Supervisor.MossSupervisor.EnqueueJob | linux/backend/moss_worker/supervisor.py:239-242 | submit appends the job and installs a fresh cancel event |
| Supervisor.MossSupervisor.SetJobState | linux/backend/moss_worker/supervisor.py:292-302 | A transition is recorded only from a state that has not ended, and changes nothing but the snapshot; on a reliable disk it always is recorded from such a state |
| Supervisor.MossSupervisor.ReplanJob | linux/backend/moss_worker/supervisor.py:389-391 | Plan, then snapshot; on success both are on disk |
| Supervisor.MossSupervisor.SaveAttempt | linux/backend/moss_worker/supervisor.py:419-419 | On success exactly the raw text and the checkpoint are new, and the remaining work is smaller |
| Supervisor.MossSupervisor.Yield | linux/backend/moss_worker/supervisor.py:266-290 | Other threads run between lock regions and leave the running job's work; a raised event stays raised, and the job stays open unless they end it as cancelled |
| Supervisor.MossSupervisor.ChooseReplacement | linux/backend/moss_worker/supervisor.py:367-388 | A job fails exactly for a window that may not be replaced, that is after a second crash, when no tier is left or a window of it does not fit, or for another error, and with the error of that case; replacements are the ones the retry policy allows |
| Supervisor.MossSupervisor.RecordAttempt | linux/backend/moss_worker/supervisor.py:413-421 | The attempt is saved as it was given, then what the child reported about it; the next turn comes only after both |
| Supervisor.MossSupervisor.Derive | linux/backend/moss_worker/supervisor.py:427-436 | A phase is announced and stands, unless another thread ends the job, and then its file is saved |
| Supervisor.MossSupervisor.RetryWindow | linux/backend/moss_worker/supervisor.py:367-392 | A window that may be replaced is replaced, by itself after a first crash and by the windows of the next tier otherwise, with progress; one that may not ends the job FAILED with its error |
| Supervisor.MossSupervisor.FailFor | linux/backend/moss_worker/supervisor.py:369-388 | A window that may not be replaced ends the job FAILED, with its error in the snapshot |
| Supervisor.MossSupervisor.ReplaceWindow | linux/backend/moss_worker/supervisor.py:389-392 | On success the plan is the old one with the window replaced under identities never planned before |
| Supervisor.MossSupervisor.Infer | linux/backend/moss_worker/supervisor.py:401-418 | The child's answer is returned exactly when it is terminal and for the window asked for; a crash becomes a failed result; a stop leaves CANCELLED |
| Supervisor.MossSupervisor.NativeStates | linux/backend/moss_worker/supervisor.py:318-322 | Each progress report of the child becomes the state of the job, until another thread ends it; a report that is not native raises |
| Supervisor.MossSupervisor.Conclude | linux/backend/moss_worker/supervisor.py:404-418 | A stop for a raised cancel leaves CANCELLED, a crash becomes a failed result, and an answer is taken exactly when it is terminal and for the window asked for |
| Supervisor.MossSupervisor.AttemptWindow | linux/backend/moss_worker/supervisor.py:393-421 | A window over budget gets the failed result of that without a child; otherwise one inference is recorded as its attempt; nothing else of the work changes |
| Supervisor.MossSupervisor.InferWindow | linux/backend/moss_worker/supervisor.py:399-421 | A window within budget is attempted once by a child that runs: its answer becomes the checkpoint, a stop for a raised cancel ends the job CANCELLED |
| Supervisor.MossSupervisor.EnsureChild | linux/backend/moss_worker/supervisor.py:399-400 | A running child is kept, and a dependable one starts |
| Supervisor.MossSupervisor.MergeJob | linux/backend/moss_worker/supervisor.py:426-436 | On success speaker state and merged segments are what merging makes of the stored results, and the recorded work is unchanged |
| Supervisor.MossSupervisor.WindowTurn | linux/backend/moss_worker/supervisor.py:355-421 | A turn takes the earliest pending window, replaces it if an attempt at it failed and attempts it otherwise, or finds every window done; it ends the job CANCELLED only with the event raised and FAILED only for a window that may not be replaced; an event raised when it begins always ends it |
| Supervisor.MossSupervisor.CheckedTurn | linux/backend/moss_worker/supervisor.py:356-421 | From the check of the event on: a raised event ends the job CANCELLED and does no work; without one, an earliest pending window that may not be replaced ends it FAILED |
| Supervisor.MossSupervisor.UncancelledTurn | linux/backend/moss_worker/supervisor.py:359-421 | The earliest pending window decides the turn: hopeless, it ends the job; failed, it is replaced; untried, it is attempted; and where no window is pending nothing is done |
| Supervisor.MossSupervisor.RunWindows | linux/backend/moss_worker/supervisor.py:355-421 | The loop ends whatever the child answers, with every window done or with the job ended for a reason of one of its turns |
| Supervisor.MossSupervisor.FinishJob | linux/backend/moss_worker/supervisor.py:422-424 | On success the job holds the merged segments of all its windows and is COMPLETED exactly when no cancel was raised |
| Supervisor.MossSupervisor.ServeJob | linux/backend/moss_worker/supervisor.py:327-348 | Jobs behind it keep their places; on a reliable disk with a dependable child a popped job has ended afterwards |
| Supervisor.MossSupervisor.RunGuarded | linux/backend/moss_worker/supervisor.py:339-345 | A run that raises leaves no child and is recorded as FAILED if that is possible; on a reliable disk with a dependable child the job has ended in any case |
| Matching.ScoreUnit | linux/backend/moss_worker/speaker_remap.py:24-33 | Every match score lies in [0,1] |
| Matching.HighScoreNeedsBoth | linux/backend/moss_worker/speaker_remap.py:24-33 | A score of 0.85 needs two thirds of shared time and four sevenths of text similarity; neither alone reaches it |
| Matching.PerfectScoreIff | linux/backend/moss_worker/speaker_remap.py:24-33 | Exactly equal intervals, equal texts and equal places score one |
| Matching.ScoreWeights | linux/backend/moss_worker/speaker_remap.py:24-33 | Without a division: in twentieths nine for the shared time, seven for the words, two for the lengths and two for the order |
| Matching.OrderScoreExact | linux/backend/moss_worker/speaker_remap.py:55-55 | The order score falls short of one by the distance of the two relative places |
| Matching.OrderScoreRange | linux/backend/moss_worker/speaker_remap.py:55-55 | It lies in [0,1], is one exactly for the same relative place and nothing exactly from first to last |
| Matching.NearerScoresHigher | linux/backend/moss_worker/speaker_remap.py:55-55 | Places of the same sides score in the opposite order of how far apart they stand |
| Matching.NearerIsBetter | linux/backend/moss_worker/speaker_remap.py:48-56 | Of two candidates that say the same at the same time the one nearer in the order scores higher |
| Matching.FartherOnlyIfTaken | linux/backend/moss_worker/speaker_remap.py:57-62 | The farther one is chosen only if the free end of the nearer one went to a candidate at least as good |
| Matching.GreedyOneToOne | linux/backend/moss_worker/speaker_remap.py:57-62 | No utterance is matched twice |
| Matching.GreedyBlocks | linux/backend/moss_worker/speaker_remap.py:58-62 | A rejected candidate shares an end with a chosen one of at least its score |
| Matching.GreedyHalfOptimal | linux/backend/moss_worker/speaker_remap.py:57-62 | The greedy total is at least half that of any one-to-one matching |
| Matching.RankedSound | linux/backend/moss_worker/speaker_remap.py:48-58 | The ranked candidates are exactly the eligible pairs, in order |
| Matching.PairsSound | linux/backend/moss_worker/speaker_remap.py:36-63 | Pairs are one-to-one, eligible, overlap in time and come only from an earlier window |
| Matching.PairScores | linux/backend/moss_worker/speaker_remap.py:36-63 | Every pair overlaps and carries the score of its two utterances |
| Matching.PairPlaces | linux/backend/moss_worker/speaker_remap.py:44-63 | Every pair stands at two places of the time-ordered sides, and its order is the order score of these places |
| Matching.OverlapPairs | linux/backend/moss_worker/speaker_remap.py:36-63 | The loops compute exactly those pairs |
| Assignment.PermutationsSound | linux/backend/moss_worker/speaker_remap.py:114-117 | The enumeration holds exactly the arrangements without repetition |
| Assignment.PermutationsCount | linux/backend/moss_worker/speaker_remap.py:110-112 | The number of arrangements is the falling factorial that the limit counts |
| Assignment.EnumerationDominates | linux/backend/moss_worker/speaker_remap.py:118-122 | A bound on the enumerated scores bounds every partial one-to-one assignment |
| Assignment.FirstBestUnique | linux/backend/moss_worker/speaker_remap.py:118-122 | Ties are decided: only one assignment is the first best |
| Labels.DecimalRoundTrip | linux/backend/moss_worker/speaker_remap.py:128-128 | Printing a number and reading it back are inverse |
| Labels.LabelRoundTrip | linux/backend/moss_worker/speaker_remap.py:97-97 | Labels with different numbers differ |
| SpeakerRemap.TalliedMeans | linux/backend/moss_worker/speaker_remap.py:106-106 | The means of the tallied votes are the vote matrix |
| SpeakerRemap.CountVotes | linux/backend/moss_worker/speaker_remap.py:98-106 | The voting loop computes the matrix of mean scores |
| SpeakerRemap.SpeakersStayDistinct | linux/backend/moss_worker/speaker_remap.py:88-131 | Two locals of a window share a label if and only if the kept entries already did |
| SpeakerRemap.AllocatedIsNew | linux/backend/moss_worker/speaker_remap.py:127-129 | A label allocated below 0.85 occurs nowhere in the stored state nor in the segments |
| SpeakerRemap.CellHasEvidence | linux/backend/moss_worker/speaker_remap.py:98-106 | A mean vote of 0.85 rests on at least one matched pair that agrees in time and text |
| SpeakerRemap.MapTwice | linux/backend/moss_worker/speaker_remap.py:90-94 | A second call on the window just mapped, after whatever window, returns the same segments and changes no entry |
| SpeakerRemap.SpeakerRemapper.constructor | linux/backend/moss_worker/speaker_remap.py:73-74 | The initial state allocates from one |
| SpeakerRemap.SpeakerRemapper.Bump | linux/backend/moss_worker/speaker_remap.py:95-97 | The counter ends at the least number above every label seen |
| SpeakerRemap.SpeakerRemapper.Decide | linux/backend/moss_worker/speaker_remap.py:123-131 | New locals follow the best assignment where confident, else get distinct fresh numbers |
| SpeakerRemap.SpeakerRemapper.MapAdjacent | linux/backend/moss_worker/speaker_remap.py:79-135 | The whole call: errors exactly for malformed labels or too many candidates, no table change on error, known windows untouched, else the remapping relation holds |
| SpeakerHistory.MemoriesGrow | linux/backend/moss_worker/supervisor.py:426-433 | Over the windows of a recording entries are permanent and the next number never goes back |
| SpeakerHistory.LabelsAreFinal | linux/backend/moss_worker/supervisor.py:426-433 | What a segment carries in the transcript is its entry at the end of the run |
| SpeakerHistory.RepetitionIsAccepted | linux/backend/moss_worker/supervisor.py:426-433 | Mapping a recording again from the saved speaker state is never refused |
| SpeakerHistory.FirstMappingAt | linux/backend/moss_worker/supervisor.py:426-433 | In every window of a new recording two segments share a label if and only if they share a local speaker, and each label rests on an agreeing utterance of the window before or is a new number |
| SpeakerHistory.OneSpeakerStaysAt | linux/backend/moss_worker/speaker_remap.py:103-131 | The only speaker of a new window takes the only label of the window before whenever the mean vote reaches 0.85 |
| Merger.NothingIsClipped | linux/backend/moss_worker/merger.py:21-29 | No decision of a merge keeps an utterance that is nearer to the edge of its window than the one it is kept over |
| Merger.KeptBecause | linux/backend/moss_worker/merger.py:19-29 | Which of a pair is kept, tie by tie: further from its window's edges, parsed without repair, fewer rivals in its window; else the later window's only if both lie in the second half of the overlap |
| Merger.PairIsDecidedIff | linux/backend/moss_worker/merger.py:13-18 | A matched pair is taken for the same speech exactly if the two share at least half of the longer one |
| Merger.NoSpeechLost | linux/backend/moss_worker/merger.py:8-35 | Nothing is lost exactly when no conflict is decided for an utterance that already carries an alternate and no duplicate that carries one is dropped |
| Merger.DuplicatesAgree | linux/backend/moss_worker/merger.py:13-33 | What is decided shares at least half of the longer utterance; a dropped duplicate agrees with the kept one in text and speaker, and where they differ the kept one is a conflict that carries the other |
| Merger.DroppedIsSaid | linux/backend/moss_worker/merger.py:13-33 | Everything counted as dropped is said by a segment of the output: same text, same speaker, at least half of the longer |
| Merger.MergeSorted | linux/backend/moss_worker/merger.py:35-35 | The output is sorted |
| Merger.ResolvePairs | linux/backend/moss_worker/merger.py:11-33 | The loop over pairs makes exactly the decisions of the specification |
| Merger.MergeAdjacent | linux/backend/moss_worker/merger.py:8-35 | The method computes the specified merge |
| Recording.RecordingConserved | linux/backend/moss_worker/supervisor.py:426-436 | Over a whole recording every utterance occurs exactly as often as in the transcript and its alternates, among the dropped duplicates and among the lost alternates together |
| Recording.TranscriptCompleteIff | linux/backend/moss_worker/supervisor.py:426-436 | Nothing but duplicates is missing from the transcript if and only if no merge along the way loses an alternate, by a second conflict or with a duplicate |
| Recording.DroppedWasSaid | linux/backend/moss_worker/supervisor.py:426-436 | Each dropped utterance was said by a segment of the transcript at that time |
| Recording.NoThirdWindowKeepsAll | linux/backend/moss_worker/supervisor.py:426-436 | Where no three windows share an instant nothing is lost |
| SecondConflicts.LabelIsNew | linux/backend/moss_worker/speaker_remap.py:126-129 | A speaker who alone fills a window as short as its two overlaps gets a new label there |
| SecondConflicts.CarrierStays | linux/backend/moss_worker/merger.py:22-31 | In a run over parsed results an utterance that carries an alternate is never dropped for one of the next window |
| SecondConflicts.OnlySecondConflictsLose | linux/backend/moss_worker/supervisor.py:426-436 | In a run over parsed results an alternate is lost if and only if a second conflict is decided for an utterance that carries one |
| ShortWindows.HourIsPlanned | linux/backend/moss_worker/windowing.py:54-73 | The nine windows of a recording of 68 minutes are its plan |
| ShortWindows.OneLabel | linux/backend/moss_worker/speaker_remap.py:95-135 | In every run over the results of that recording the speaker keeps one label through the last three windows |
| ShortWindows.FirstVersionIsLost | linux/backend/moss_worker/merger.py:30-31 | In every run over those results a second conflict overwrites an alternate: one utterance is said once, is nowhere in the transcript and was not dropped as a duplicate |
| ShortWindows.DuplicateLoses | linux/backend/moss_worker/merger.py:29-33 | Two merges by themselves, on labels that no run gives, in which a dropped duplicate takes its alternate along |
| Recording.Relabel | linux/backend/moss_worker/speaker_remap.py:79-135 | One call changes labels and confidences only, as the remapping relation says, and fails exactly when it is refused |
| Recording.MergeRecording | linux/backend/moss_worker/supervisor.py:426-436 | The loop over finished windows: each is mapped after the labelled window before it, the result is the transcript of the labelled windows, and it fails exactly at a window whose mapping is refused |
| Recording.RepeatedMergeAgrees | linux/backend/moss_worker/supervisor.py:426-436 | A merge repeated from the saved speaker state gives the same transcript |
| Pipeline.MergeFiles | linux/backend/moss_worker/supervisor.py:426-436 | The two files of a merge come from one run of the pipeline over the stored results, resumed from the stored speaker state |
| Pipeline.MergedFileIsTranscript | linux/backend/moss_worker/supervisor.py:426-436 | With the pipeline as its merging, what a supervisor leaves in the merged file is the transcript of the labelled results, and it lacks nothing but duplicates if and only if no merge lost an alternate |
| Pipeline.MergedFileKeepsAll | linux/backend/moss_worker/supervisor.py:426-436 | On the windows of a plan, whatever was retried, that are longer than their two overlaps the merged file holds all that the stored results say, except duplicates |
| Scanner.StripParts | linux/backend/moss_worker/parser.py:107-107 | Stripping removes exactly the white space at both ends |
| Scanner.TimestampIff | linux/backend/moss_worker/parser.py:9-9 | A timestamp is found exactly where the text starts with a bracketed decimal number, and has its value |
| Scanner.FractionMeaning | linux/backend/moss_worker/parser.py:78-78 | Digits after the point mean tenths, hundredths and so on, exactly |
| Scanner.NumberValueMeaning | linux/backend/moss_worker/parser.py:78-78 | A decimal number means its digits without the point, scaled by the places after it |
| Scanner.IsNumberIff | linux/backend/moss_worker/parser.py:9-9 | A number is digits alone, or digits, a point and digits |
| Scanner.SpeakerIff | linux/backend/moss_worker/parser.py:10-10 | A speaker is found exactly where the text starts with a bracketed S and two or more digits |
| Scanner.TimestampStable | linux/backend/moss_worker/parser.py:76-97 | Text after a timestamp does not change the match |
| Scanner.SpeakerStable | linux/backend/moss_worker/parser.py:80-97 | Text after a speaker does not change the match |
| Parser.AbsoluteMs | linux/backend/moss_worker/parser.py:39-43 | Half-up rounding: the result is within half a millisecond, and halves go up |
| Parser.AcceptedInGrammar | linux/backend/moss_worker/parser.py:76-118 | Every accepted fragment is an utterance of the reference grammar with the values read there, and its end is shared exactly if a speaker follows |
| Parser.GrammarAccepted | linux/backend/moss_worker/parser.py:76-118 | Every utterance of the reference grammar is accepted |
| Parser.RejectedBecause | linux/backend/moss_worker/parser.py:77-92 | Each reason for a refusal names the first thing that is missing or out of place, and what stands before it is there |
| Parser.DanglingIff | linux/backend/moss_worker/parser.py:119-125 | A text is dropped exactly if it is a bracketed number with nothing visible after it |
| Parser.ScanOrdered | linux/backend/moss_worker/parser.py:71-118 | Accepted utterances are ordered, do not overlap and lie inside the window, clamped and shared ends included |
| Parser.ScanReads | linux/backend/moss_worker/parser.py:71-128 | Each stretch is read after the end of the one before it, and reading stops only where no utterance is |
| Parser.ReadFragment | linux/backend/moss_worker/parser.py:75-127 | The nested checks give the first failing reason, a dangling timestamp, or the utterance |
| Parser.PublishedSays | linux/backend/moss_worker/parser.py:104-118 | Segment k is the utterance that the grammar reads at its place, after the end of the one before; it is repaired exactly if its end was clamped or is shared |
| Parser.OutcomeRest | linux/backend/moss_worker/parser.py:119-128 | The unread rest starts where reading stopped: nothing, one invalid fragment with its reason, or a dropped timestamp |
| Parser.SaidIsLocal | linux/backend/moss_worker/parser.py:108-109 | Its speaker is a local label, and it has no global one yet |
| Parser.RepairsAreRecorded | linux/backend/moss_worker/parser.py:90-115 | A segment is Valid exactly when its end is its own stamp inside the window; a clamped end is the end of the window, and its original, at most 10 ms later, is kept |
| Parser.SegmentsOrdered | linux/backend/moss_worker/parser.py:104-107 | After rounding, segments have distinct identifiers and do not overlap |
| Parser.SegmentInWindow | linux/backend/moss_worker/parser.py:92-107 | After rounding, every segment lies inside the window |
| GenerationPolicy.WrittenIsRead | linux/backend/moss_worker/generation_policy.py:11-11 | Whatever is written as a turn is recognised as that turn |
| GenerationPolicy.ReadIsWritten | linux/backend/moss_worker/generation_policy.py:11-11 | Whatever is recognised as a turn was written as one |
| GenerationPolicy.LinesAreRecognised | linux/backend/moss_worker/generation_policy.py:28-49 | Every well-formed text of lines is recognised, line by line, with its times and words |
| GenerationPolicy.RecognisedAreLines | linux/backend/moss_worker/generation_policy.py:28-49 | Whatever the loop accepts is a well-formed text of lines |
| GenerationPolicy.CompleteIff | linux/backend/moss_worker/generation_policy.py:14-49 | A generation is complete exactly if it ended normally within the reserve and its text is a start time and well-formed lines |
| GenerationPolicy.ClassifyGeneration | linux/backend/moss_worker/generation_policy.py:14-49 | No error exactly for a normal end, a count inside the reserve and a text of one or more whole turns |
| GenerationPolicy.TurnReads | linux/backend/moss_worker/parser.py:76-118 | A turn of the classifier is an utterance of the parser unless it starts after the window or ends beyond the tolerance |
| GenerationPolicy.TurnsAgree | linux/backend/moss_worker/generation_policy.py:31-48 | From any turn on the two scanners agree |
| AudioTokens.BuildAudioSpanIds | linux/backend/moss_worker/embedding_builder.py:107-121 | The marker loop builds the specified span, and refuses only negative counts |
| AudioTokens.SpanCount | linux/backend/moss_worker/embedding_builder.py:107-121 | A span for n audio tokens holds exactly n of them, for every n |
| AudioTokens.MarkerPosition | linux/backend/moss_worker/embedding_builder.py:115-119 | The digits of the k-th marker follow exactly k strides of audio tokens |
| AudioTokens.ExpandInputIds | linux/backend/moss_worker/embedding_builder.py:127-132 | The prompt is refused unless it has exactly one placeholder |
| AudioTokens.CounterMatchesEncoder | linux/backend/moss_worker/embedding_builder.py:163-171 | The counter's arithmetic equals the rows of all encoder chunks, for every number of samples |
| AudioTokens.Chunks | linux/backend/moss_worker/audio_frontend.py:73-77 | The chunk loop produces those rows, each between one and a full chunk |
| AudioTokens.Build | linux/backend/moss_worker/embedding_builder.py:134-152 | Built exactly when the input fits and no other placeholder occurs, with one position per audio row |
| AudioTokens.ReadSamples | linux/backend/moss_worker/audio_frontend.py:39-60 | A window is readable exactly when it is non-empty and inside the recording; the frames read are non-empty and as many as planning counts |
| AudioTokens.DurationForms | linux/backend/moss_worker/supervisor.py:225-225 | The planned duration and the readable duration are the same number |
| AudioTokens.EveryFrameIsRead | linux/backend/moss_worker/supervisor.py:220-230 | Every frame of the recording is read by a planned window |
| Resampler.Pcm16Monotone | webapp/src/audio/browserVoiceprintCapture.ts:55-64 | Codes fit 16 bits and never fall when the sample rises |
| Resampler.CodesRoundTrip | webapp/src/audio/browserVoiceprintCapture.ts:55-64 | Each 16-bit code is the code of the sample it stands for, and a sample in range is at most half a code away from what its code stands for |
| Resampler.Float32ToPcm16 | webapp/src/audio/browserVoiceprintCapture.ts:55-64 | The array holds the code of each sample |
| Resampler.InterpolateBetween | webapp/src/audio/browserVoiceprintCapture.ts:103-107 | An output lies between its two neighbours |
| Resampler.InterpolateMixes | webapp/src/audio/browserVoiceprintCapture.ts:88-107 | Between two neighbours, ends included, the output is their mix in proportion of how near they are |
| Resampler.InterpolateLine | webapp/src/audio/browserVoiceprintCapture.ts:88-107 | Interpolating samples of a line gives the line |
| Resampler.OneShotInterpolates | webapp/src/audio/browserVoiceprintCapture.ts:81-115 | Both for every output of a whole stream |
| Resampler.AvailableIff | webapp/src/audio/browserVoiceprintCapture.ts:88-93 | Output k is available exactly when k steps lie within the samples received |
| Resampler.ReadyIff | webapp/src/audio/browserVoiceprintCapture.ts:88-93 | The loop stops exactly at the first output that is not available |
| Resampler.OneShotGrows | webapp/src/audio/browserVoiceprintCapture.ts:81-115 | More input adds outputs and changes none |
| Resampler.SameRateIsIdentity | webapp/src/audio/browserVoiceprintCapture.ts:78-107 | At equal rates nothing is interpolated |
| Resampler.Pcm16Resampler.constructor | webapp/src/audio/browserVoiceprintCapture.ts:72-79 | A new resampler has consumed and returned nothing |
| Resampler.Pcm16Resampler.Create | webapp/src/audio/browserVoiceprintCapture.ts:72-79 | Refuses exactly rates that are not positive |
| Resampler.Pcm16Resampler.Sample | webapp/src/audio/browserVoiceprintCapture.ts:95-107 | Across a chunk border the sample is the interpolation of the joined stream |
| Resampler.Pcm16Resampler.Resample | webapp/src/audio/browserVoiceprintCapture.ts:88-110 | A call emits exactly the outputs that became available |
| Resampler.Pcm16Resampler.Process | webapp/src/audio/browserVoiceprintCapture.ts:81-115 | All outputs so far are the one-shot resampling of all input so far |
| Outbox.LatestIsHighest | webapp/src/audio/browserAsrCapture.ts:91-112 | Of pending frames in any order the one with the highest sequence is found |
| Outbox.ReconcileFindsEnd | webapp/src/audio/browserAsrCapture.ts:91-112 | Reconciliation after a reload never fails and finds the end of everything appended |
| Outbox.OpensAtEnd | webapp/src/audio/browserAsrCapture.ts:91-112 | A page that opens goes on at the end of the capture, with nothing in flight, nothing failed, and its cursor still to be saved |
| Outbox.ReachableGood | webapp/src/audio/browserAsrCapture.ts:787-902 | The protocol invariant of page, server and network holds of every run |
| Outbox.OnlyLowestIsSent | webapp/src/audio/browserAsrCapture.ts:462-471 | Only the lowest pending frame is sent, and not while another is in flight |
| Outbox.OnlyAckedIsDeleted | webapp/src/audio/browserAsrCapture.ts:826-848 | A frame leaves the store only on an acknowledgement of exactly that frame |
| Outbox.OnlyStorageFails | webapp/src/audio/browserAsrCapture.ts:787-852 | A page fails only for storage, capacity, the server's incomplete mark or a message that fits no frame: never for a reused sequence, a cursor conflict or the acknowledgement of a held frame |
| Outbox.DrainOne | webapp/src/audio/browserAsrCapture.ts:854-902 | Sending, storing and acknowledging deletes one frame and frees the socket |
| Outbox.MarkerComesLast | webapp/src/audio/browserAsrCapture.ts:481-494 | Unless storage failed, the incomplete marker is sent only when the server holds everything ever appended |
| Outbox.MarkerOnceOnASocket | webapp/src/audio/browserAsrCapture.ts:473-507 | The marker goes out with the first chance after a failure, once nothing is pending or the pending frames are given up; once on a socket, and again on the next unless it was confirmed |
| Outbox.ReuseIff | webapp/src/audio/browserAsrCapture.ts:797-800 | After a deletion a reload resumes at the end if and only if a cursor beyond the frame had been saved; otherwise its sequence is used again |
| Outbox.ReuseReachable | webapp/src/audio/browserAsrCapture.ts:787-802 | A deletion before the cursor save is reachable when acknowledgements overtake it |
| Outbox.RecoveryReuseReachable | webapp/src/audio/browserAsrCapture.ts:404-431 | A capture whose unconfirmed recovery leads to a second frame with the first sequence |
| BrowserAsrCapture.BoundedBrowserAsrOutbox.constructor | webapp/src/audio/browserAsrCapture.ts:114-118 | A new store is empty |
| BrowserAsrCapture.BoundedBrowserAsrOutbox.List | webapp/src/audio/browserAsrCapture.ts:120-122 | Lists the store in sequence order |
| BrowserAsrCapture.BoundedBrowserAsrOutbox.Append | webapp/src/audio/browserAsrCapture.ts:124-141 | Idempotent for the same frame, refused for other data or over capacity, else stored |
| BrowserAsrCapture.BoundedBrowserAsrOutbox.Acknowledge | webapp/src/audio/browserAsrCapture.ts:143-145 | Removes exactly one sequence |
| BrowserAsrCapture.BoundedBrowserAsrOutbox.Clear | webapp/src/audio/browserAsrCapture.ts:147-149 | Removes frames and cursor |
| BrowserAsrCapture.BoundedBrowserAsrOutbox.SaveProgress | webapp/src/audio/browserAsrCapture.ts:155-157 | Stores the cursor |
| BrowserAsrCapture.BrowserFormalIncompleteMarker.constructor | webapp/src/audio/browserAsrCapture.ts:473-479 | Nothing sent, nothing confirmed |
| BrowserAsrCapture.BrowserFormalIncompleteMarker.MarkSent | webapp/src/audio/browserAsrCapture.ts:496-498 | Sent on this socket |
| BrowserAsrCapture.BrowserFormalIncompleteMarker.Confirm | webapp/src/audio/browserAsrCapture.ts:500-502 | Confirmed |
| BrowserAsrCapture.BrowserFormalIncompleteMarker.OnSocketClosed | webapp/src/audio/browserAsrCapture.ts:504-506 | To be sent again unless confirmed |
| BrowserAsrCapture.BrowserPcmStreamer.Start | webapp/src/audio/browserAsrCapture.ts:620-630 | Opening resumes at the reconciled cursor of whatever was stored |
| BrowserAsrCapture.BrowserPcmStreamer.SaveProgress | webapp/src/audio/browserAsrCapture.ts:800-800 | The saved cursor is the page's, or the page has failed |
| BrowserAsrCapture.BrowserPcmStreamer.AppendChunk | webapp/src/audio/browserAsrCapture.ts:792-799 | One frame is appended and counted, or the page has failed |
| BrowserAsrCapture.BrowserPcmStreamer.PumpFormalOutbox | webapp/src/audio/browserAsrCapture.ts:854-902 | At most one message, and none while one is in flight or after the mark was confirmed |
| BrowserAsrCapture.BrowserPcmStreamer.HandleFormalAck | webapp/src/audio/browserAsrCapture.ts:810-848 | Any message: one for a pending frame and its end deletes it, one for an older frame changes nothing, any other fails the page |
| BrowserAsrCapture.BrowserPcmStreamer.DeleteAcknowledged | webapp/src/audio/browserAsrCapture.ts:836-848 | Exactly the protocol step of the acknowledged frame, then at most one send |
| BrowserAsrCapture.BrowserPcmStreamer.OnSocketClosed | webapp/src/audio/browserAsrCapture.ts:771-784 | Nothing stays in flight |
| BrowserAsrCapture.BrowserPcmStreamer.BindSocket | webapp/src/audio/browserAsrCapture.ts:765-770 | A bound socket can carry frames |
| BrowserAsrCapture.BrowserPcmStreamer.ConfirmIncomplete | webapp/src/audio/browserAsrCapture.ts:816-820 | The mark is confirmed and the page has failed |
| BrowserAsrCapture.BrowserPcmStreamer.PersistChunk | webapp/src/audio/browserAsrCapture.ts:791-801 | Append, save, pump, with any events at the waits |
| BrowserAsrCapture.BrowserPcmStreamer.PersistFormalPcm | webapp/src/audio/browserAsrCapture.ts:787-806 | All audio of a block is appended in order unless the page fails, and a prefix in any case, in frames that are full except the last; with room and a store that works the page does not fail while nothing else happens |
| BrowserAsrCapture.RecoverCapture | webapp/src/audio/browserAsrCapture.ts:404-432 | Frames are deleted in order as long as the answers are acknowledgements of exactly the next frame and its end; each failure says why, and success only when all are deleted and the server confirms |
| BrowserAsrCapture.RecoverThenStart | webapp/src/audio/browserAsrCapture.ts:391-439 | After a recovery that failed, the next start finds the end of the capture exactly if a frame is left or the cursor was saved there |
| SpeechSession.SpeechSession.constructor | linux/backend/speech_worker/session.py:50-119 | A new session is idle with nothing received |
| SpeechSession.SpeechSession.AppendPreRoll | linux/backend/speech_worker/session.py:499-510 | The pre-roll is the last part of the stream, as much as its bound allows, and its start is exact |
| SpeechSession.SpeechSession.Receive | linux/backend/speech_worker/session.py:132-141 | Audio extends the open utterance or the pre-roll; what is held stays a suffix of the stream, at the positions of the millisecond machine |
| SpeechSession.SpeechSession.StartUtterance | linux/backend/speech_worker/session.py:225-266 | The start is clamped to the audio received; the utterance holds the stream from its capture start, or from where retained audio begins if later |
| SpeechSession.SpeechSession.SetPreRollAfterBoundary | linux/backend/speech_worker/session.py:512-521 | What follows an utterance becomes a bounded suffix with an exact start |
| SpeechSession.SpeechSession.Collapse | linux/backend/speech_worker/session.py:523-532 | A dropped utterance leaves nothing held and the old pre-roll start |
| SpeechSession.SpeechSession.FinishUtterance | linux/backend/speech_worker/session.py:268-299 | The audio sent on is a slice of the stream from where the utterance holds it; a collapsed one sends nothing |
| SpeechSession.SpeechSession.Finish | linux/backend/speech_worker/session.py:268-299 | Positions and events are those of the millisecond machine, and the events carry exactly the recorded slices |
| SpeechSession.SpeechSession.ConsumeSegment | linux/backend/speech_worker/session.py:197-217 | One detector segment moves positions and produces events exactly as the millisecond machine says, and keeps slices disjoint and in order |
| SpeechSession.SpeechSession.ConsumeVadEvents | linux/backend/speech_worker/session.py:190-223 | A list of detector segments, up to the first impossible one, moves positions and produces events exactly as the millisecond machine says; final events carry exactly the recorded slices; an error exactly for an impossible boundary |
| SpeechSession.SpeechSession.ConsumeEnd | linux/backend/speech_worker/session.py:155-172 | The last segments and the forced end of an utterance that is still open |
| SpeechSession.SpeechSession.Finalize | linux/backend/speech_worker/session.py:155-176 | The end of the session as its last input, with the same guarantee; a second call does nothing |
| SpeechSession.InPlaceIsHeard | linux/backend/speech_worker/session.py:121-176 | Cues that are in place become events whose audio is exactly the stream from the announced capture start to the end |
| SessionClock.ChunksDoNotMatter | linux/backend/speech_worker/session.py:132-141 | Positions do not depend on how the audio is cut into chunks |
| SessionClock.BaseIsOffset | linux/backend/speech_worker/session.py:190-199 | A detector that begins later by some time is one that reports everything later by it |
| SessionClock.DelayedStart | linux/backend/speech_worker/session.py:225-266 | An utterance whose start is reported late is sent on from its start if that is within the pre-roll and after the utterance before; otherwise exactly what lies before those bounds is missing |
| SessionClock.NeverFallsIsExact | linux/backend/speech_worker/session.py:190-299 | The watch never alarms where each end that closes an utterance is after its start |
| SessionClock.AlarmReachable | linux/backend/speech_worker/session.py:283-294 | A session of three calls on which it does |
| SpeechSession.CollapseMovesTheNext | linux/backend/speech_worker/session.py:283-294 | A concrete stream on which a collapse shifts the next utterance by 80 milliseconds |
| TurnSplitter.WindowFitsIff | linux/backend/speech_worker/speaker_turn_splitter.py:150-153 | A start is a window exactly when a whole window is left from there |
| TurnSplitter.OpposingHasWitnesses | linux/backend/speech_worker/speaker_turn_splitter.py:290-299 | Opposing roles have witnesses: a window decidedly of the reference and one decidedly not |
| TurnSplitter.OpposingIff | linux/backend/speech_worker/speaker_turn_splitter.py:291-299 | The sides of a dip oppose exactly if one of them, whichever it is, is on average decidedly the reference and the other decidedly not |
| TurnSplitter.ClearSidesOppose | linux/backend/speech_worker/speaker_turn_splitter.py:202-210 | Where all windows before a dip are clearly like the reference and all from it on clearly unlike it, or the other way round, the sides oppose; without a reference none do |
| TurnSplitter.KnownCounts | linux/backend/speech_worker/speaker_turn_splitter.py:293-294 | The known values of a side are all that are there, as often as they are |
| TurnSplitter.DipsMembers | linux/backend/speech_worker/speaker_turn_splitter.py:211-215 | The dips are exactly the positions below the firing threshold |
| TurnSplitter.OnlyInsideMatters | linux/backend/speech_worker/speaker_turn_splitter.py:156-279 | Nothing outside the utterance is ever embedded: turns and metrics depend only on its own pieces |
| TurnSplitter.LonelyDip | linux/backend/speech_worker/speaker_turn_splitter.py:226-238 | Two dips side by side always change the speaker; a lonely one only if it is deep or its sides have opposing roles |
| TurnSplitter.AcceptedMembers | linux/backend/speech_worker/speaker_turn_splitter.py:226-238 | The accepted changes are exactly the dips that a rule supports |
| TurnSplitter.MergeSpaced | linux/backend/speech_worker/speaker_turn_splitter.py:240-245 | Kept changes are at least two hops apart |
| TurnSplitter.ChangePointsSpaced | linux/backend/speech_worker/speaker_turn_splitter.py:240-250 | Change points are accepted dips, two hops apart, with room at both ends |
| TurnSplitter.TransitionIsFound | linux/backend/speech_worker/speaker_turn_splitter.py:226-250 | No accepted dip is passed over: its change starts there or at most a hop before, and is a change point if that leaves room at both ends |
| TurnSplitter.TurnsTile | linux/backend/speech_worker/speaker_turn_splitter.py:156-279 | Turns cut a non-empty utterance into non-empty pieces |
| TurnSplitter.ShortTurnExists | linux/backend/speech_worker/speaker_turn_splitter.py:240-265 | Beyond two hops, and where some cosine is a dip, an utterance of two opposite embeddings is cut into a turn that is too short |
| TurnSplitter.NoDipNoCut | linux/backend/speech_worker/speaker_turn_splitter.py:211-224 | With a firing threshold of at most minus one no utterance is ever cut |
| TurnSplitter.SingleSpanIff | linux/backend/speech_worker/speaker_turn_splitter.py:180-224 | One unambiguous span if and only if the whole utterance is clearly like or unlike the reference, or there are windows to compare and none is less like the one before it than the firing threshold |
| TurnSplitter.MergeSeries | linux/backend/speech_worker/speaker_turn_splitter.py:240-245 | Of dips one hop apart every other one is kept |
| TurnSplitter.SpeakerTurnSplitter.constructor | linux/backend/speech_worker/speaker_turn_splitter.py:109-131 | No metrics before the first call |
| TurnSplitter.SpeakerTurnSplitter.Create | linux/backend/speech_worker/speaker_turn_splitter.py:120-131 | Refuses exactly impossible parameters |
| TurnSplitter.SpeakerTurnSplitter.EmbedWindows | linux/backend/speech_worker/speaker_turn_splitter.py:202-210 | One embedding a window, compared with its neighbour and the reference |
| TurnSplitter.SpeakerTurnSplitter.AcceptDips | linux/backend/speech_worker/speaker_turn_splitter.py:226-238 | The loop accepts exactly the dips that a rule supports |
| TurnSplitter.SpeakerTurnSplitter.MergeNeighbours | linux/backend/speech_worker/speaker_turn_splitter.py:240-245 | The loop keeps the first of each transition |
| TurnSplitter.SpeakerTurnSplitter.KeepUsable | linux/backend/speech_worker/speaker_turn_splitter.py:247-250 | The filter keeps exactly the changes with room at both ends |
| TurnSplitter.SpeakerTurnSplitter.CutAt | linux/backend/speech_worker/speaker_turn_splitter.py:260-265 | The spans lie between the change points |
| TurnSplitter.MetricsExplainTurns | linux/backend/speech_worker/speaker_turn_splitter.py:156-279 | The reported reason tells exactly which outcome a call had, the reported change points are the starts of the later turns, and at most windows + 1 embeddings are paid for |
| TurnSplitter.SpeakerTurnSplitter.SplitWindows | linux/backend/speech_worker/speaker_turn_splitter.py:193-279 | The windowed stage: its turns and its metrics |
| TurnSplitter.SpeakerTurnSplitter.Split | linux/backend/speech_worker/speaker_turn_splitter.py:156-279 | The whole call: the specified turns and the specified metrics |
| Lineage.ConnectedOneMore | webapp/src/stores/interrogation.ts:414-429 | A link connects exactly what was connected and the two sides it joins |
| Lineage.InterrogationStore.constructor | webapp/src/stores/interrogation.ts:178-180 | No groups and no links |
| Lineage.InterrogationStore.RememberFragment | webapp/src/stores/interrogation.ts:410-412 | The fragment is archived under its id |
| Lineage.InterrogationStore.Distinct | webapp/src/stores/interrogation.ts:417-422 | Set semantics: same members, no repetition |
| Lineage.InterrogationStore.Assign | webapp/src/stores/interrogation.ts:428-428 | Exactly the members point to the root |
| Lineage.InterrogationStore.HydrateFragmentHistory | webapp/src/stores/interrogation.ts:431-445 | Groups are those of exactly the reported links with both ends; the archive holds the last fragment of each id |
| Lineage.ReportedIff | webapp/src/stores/interrogation.ts:438-444 | A link is connected exactly if some fragment reports it with both ends |
| Lineage.LastIsRemembered | webapp/src/stores/interrogation.ts:433-437 | Of fragments with the same identifier the last one is archived |
| Lineage.InterrogationStore.FragmentHistory | webapp/src/stores/interrogation.ts:447-454 | The archived fragments connected to this one, each once, the oldest first, then by ordinal and the order of the locale |
| Calibration.Evaluate | scripts/ci/rk3588-speech-calibrate.py:183-205 | Counts of misjudged samples and the least buffer; both counts are zero exactly for a safe pair |
| Calibration.RobustnessIsRadius | scripts/ci/rk3588-speech-calibrate.py:183-205 | The robustness of a safe pair is the exact radius within which all pairs are safe |
| Calibration.CandidateMembers | scripts/ci/rk3588-speech-calibrate.py:177-180 | Candidates hold every clipped value and lie in the unit interval |
| Calibration.CandidateIff | scripts/ci/rk3588-speech-calibrate.py:177-180 | The candidates are exactly the clipped values and the middles of neighbours among them |
| Calibration.GridIsComplete | scripts/ci/rk3588-speech-calibrate.py:208-225 | If any pair in the unit square is safe, a grid pair is |
| Calibration.GridKeepsTwoThirds | scripts/ci/rk3588-speech-calibrate.py:208-225 | Whatever the distance by which all samples are safe at some pair of the unit square, a grid pair keeps two thirds of it |
| Calibration.GridNearOptimal | scripts/ci/rk3588-speech-calibrate.py:208-227 | Some grid point is at least two thirds as robust as any safe pair of the unit square |
| Calibration.TwoThirdsIsTight | scripts/ci/rk3588-speech-calibrate.py:177-225 | Two samples for which no grid point is more than two thirds as robust as a pair off the grid |
| Calibration.ScanMargins | scripts/ci/rk3588-speech-calibrate.py:219-223 | Exactly the safe pairs of one threshold |
| Calibration.ScanThresholds | scripts/ci/rk3588-speech-calibrate.py:216-225 | The loop over the thresholds finds exactly the safe pairs of the grid |
| Calibration.Greatest | scripts/ci/rk3588-speech-calibrate.py:227-227 | The greatest point in tuple order |

## Left out

- Matching.ScoreUnit: scores are real numbers; rounding of floating-point sums is not modelled, here and wherever a score, sample or timestamp is compared.
- SpeakerRemap.SpeakerRemapper.MapAdjacent: stored entries keep speaker, confidence and candidates; the list of evidence kept for audit is not modelled.
- SpeakerRemap.SpeakerRemapper.Bump: labels and local speakers use the digits 0 to 9; the expression in the source also admits other Unicode digits.
- Supervisor.EarliestPending: names are compared by number, which is the order of the strings up to w9999 and of uuid names of equal length.
- Supervisor.MossSupervisor.MergeJob: what merging makes of the stored results is a parameter of the supervisor; that it may be the modelled remap and merge loop, and what follows then, is stated in Pipeline.
- Spool.MossSpool.SaveWindowResult: a stored result keeps tags of its segments only; what a result says is read through a parameter of Pipeline.
- LostCancel.PrematureCancelLostIff: the state machine has no token counter, so the continuation that completes a job may use eight-minute windows that a particular counter would reject.
- Pipeline.MergeFiles: file formats are parameters; a stored speaker state reads as a sound one, as this system writes it, and a damaged file is not modelled.
- Supervisor.MossSupervisor.ResumeJob: whether the revision still matches is an arbitrary outcome of the comparison.
- Supervisor.MossSupervisor.Infer: the child process is an arbitrary outcome: an answer, a crash, a protocol error or a stop for a raised cancel. Whether it is dependable, and whether the disk is reliable, are parameters; without them any call may raise.
- Supervisor.MossSupervisor.RunPending: the calls of other threads are a finite script that the object serves between lock regions; in Scheduling they are unrestricted.
- Supervisor.MossSupervisor.Yield: other threads interleave at the borders of lock regions, where the source also lets them run inside long file reads.
- Spool.MossSpool.CreateJob: the directory with its plan and empty derived files counts as one write; job.json, written last, makes the job exist.
- Spool.MossSpool.LoadWindowResults: checkpoint files are keyed by window identity; hashed file names and audio re-hashing are an arbitrary I/O failure.
- Parser.ParseGeneration: the reason strings are an enumeration, and a segment identifier is the window identity, a colon and the decimal offset.
- GenerationPolicy.ClassifyGeneration: a token count that is missing or not an integer is one case.
- AudioTokens.Build: embedding values, their shapes and finiteness checks are not modelled, only the number of rows.
- AudioTokens.PlannedWindowRuns: the planning counter is total; intervals outside the recording, which the source refuses, count no samples and are never planned.
- AudioTokens.ReadSamples: the WAV container is its number of frames.
- Resampler.Pcm16Resampler.Process: samples are finite; the values NaN and infinity are not modelled, and positions do not accumulate rounding.
- Outbox.ReachableGood: one page at a time writes a capture, as the Web Locks lease guarantees, and a frame is deleted only after a cursor beyond it was saved; without the latter see Outbox.ReuseIff.
- Outbox.NothingIsLost: the server acknowledges only frames that it holds; its own store, uint32 overflow of the sequence and the acknowledgement timer are not modelled, except that a closed socket may happen at any time.
- Outbox.OnlyLowestIsSent: reading the list and sending its first frame is one step, where the source awaits the list; an acknowledgement that deletes the frame in between may lead to that frame being sent once more, which the server has already stored.
- BrowserAsrCapture.BrowserPcmStreamer.PumpFormalOutbox: the same, for the method.
- BrowserAsrCapture.BrowserPcmStreamer.PersistFormalPcm: events at the waits are a script; an event that cannot happen at that moment is skipped.
- BrowserAsrCapture.RecoverCapture: the connection is the list of the server's answers.
- SpeechSession.SpeechSession.PushPcm: a millisecond is a whole number of bytes and chunks are whole milliseconds; streaming previews, recognition and its text are not modelled.
- TurnSplitter.SpeakerTurnSplitter.Split: the utterance is its length in milliseconds; rounding of window borders to bytes is not modelled.
- TurnSplitter.SpeakerTurnSplitter.AcceptDips: accepted changes are a list in ascending order, which is the order of the sorted dictionary of the source.
- Lineage.InterrogationStore.FragmentHistory: the order of identifiers in the locale is a parameter, any total order.
- Calibration.ChooseCalibration: the summary statistics returned beside the point, and the second evaluation of it, are not modelled.
- Native inference, model bundles, mel features, sockets, health endpoints, deployment scripts, user interface and the legacy backends are not part of this model.
- Record serialisation in linux/backend/moss_worker/types.py would only add easy members.

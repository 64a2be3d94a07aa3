/** MossSupervisor as an object: its methods update the queue, the active job, the
    cancel events and the spool, and each atomic step they take is appended to a ghost
    trace that is a run of the Scheduling state machine. What that module proves about
    runs therefore holds of every state of this object and of the disk below it. */
module Supervisor {
  import opened Sets
  import opened Wrappers
  import opened Windowing
  import opened Spool
  import opened Scheduling

  /** A replacement of one failed window in the plan. */
  datatype Replacement = Replacement(id: WindowId, newIds: seq<WindowId>, windows: seq<WindowSpec>)

  /** What the other threads will still call while the scheduler thread runs. */
  datatype Call =
    | CallCancel(job: JobId)
    | CallResume(job: JobId)
    | CallCreate(job: JobId, durationMs: int, provenance: Provenance)
    | CallEnqueue(job: JobId)

  /** The child process's answer to one inference request. */
  datatype Outcome =
    | Answer(result: WindowResult, metadata: Option<string>)
    | Crashed(detail: string)
    | StoppedForCancel
    | ProtocolError

  /** The files only the scheduler thread writes. */
  predicate SameWork(f: Files, g: Files) {
    && g.plan == f.plan && g.checkpoints == f.checkpoints && g.raw == f.raw && g.ever == f.ever
    && g.durationMs == f.durationMs && g.initial == f.initial && (f.record.Some? ==> g.record.Some?)
  }

  /** The files derived from that work. */
  predicate SameDerived(f: Files, g: Files) {
    g.speakerState == f.speakerState && g.merged == f.merged && g.events == f.events && g.transcribed == f.transcribed
  }

  function WithAttempt(f: Files, r: WindowResult): Files {
    f.(raw := f.raw[r.windowId := r.raw], checkpoints := f.checkpoints[r.windowId := r])
  }

  /** What _merge makes of the stored speaker state and the results: the new speaker state and
      the merged segments, or None where it raises. The Recording module says what that is. */
  type Merging = (string, map<WindowId, WindowResult>) -> Option<(string, string)>

  predicate HasJob(disk: Disk, j: JobId) { j in disk && disk[j].record.Some? }

  function FirstIds(n: nat): (ids: seq<WindowId>)
    ensures |ids| == n && Distinct(ids)
  {
    seq(n, i requires 0 <= i < n => Initial(i + 1))
  }

  ghost predicate Plannable(durationMs: int, counter: Counter) { exists ws :: IsPlan(ws, durationMs, counter) }

  lemma StuckIsNotPlannable(durationMs: int, counter: Counter)
    requires exists ws :: Stuck(ws, durationMs, counter)
    ensures !Plannable(durationMs, counter)
  {
    var stuck :| Stuck(stuck, durationMs, counter);
    forall ws | Ladder(ws, durationMs, counter)
      ensures !IsPlan(ws, durationMs, counter)
    {
      StuckHasNoPlan(stuck, ws, durationMs, counter);
    }
  }

  /** The planned ladder, with its identities, covers the recording. */
  lemma LadderCoversRecording(ws: seq<WindowSpec>, durationMs: int, counter: Counter)
    requires IsPlan(ws, durationMs, counter)
    ensures CoversRecording(Assign(FirstIds(|ws|), ws), durationMs)
  {
    var ids := FirstIds(|ws|);
    var plan := Assign(ids, ws);
    forall id | id in plan
      ensures GoodWindow(plan[id], durationMs)
    {
      var i :| 0 <= i < |ids| && ids[i] == id;
      PlanShape(ws, durationMs, counter, i);
    }
    forall t | 0 <= t < durationMs
      ensures PlanHas(plan, t)
    {
      PlanCovers(ws, durationMs, counter, |ws|, t);
      var i :| 0 <= i < |ws| && Within(ws[i], t);
      assert ids[i] in plan && plan[ids[i]] == ws[i];
    }
  }

  /** uuid4: identities no window of the job ever had. */
  method FreshIds(n: nat, ever: set<WindowId>) returns (ids: seq<WindowId>)
    ensures |ids| == n && Distinct(ids) && forall k :: 0 <= k < n ==> ids[k] !in ever
  {
    var base: nat := 0;
    var todo := ever;
    while todo != {}
      invariant todo <= ever
      invariant forall id :: id in ever - todo && id.Retry? ==> id.uuid < base
      decreases todo
    {
      var id :| id in todo;
      if id.Retry? && id.uuid >= base {
        base := id.uuid + 1;
      }
      todo := todo - {id};
    }
    ids := seq(n, i requires 0 <= i < n => Retry(base + i));
  }

  /** Steps of other threads, and the state changes that end no job successfully. */
  predicate Quiet(a: Action) {
    || a.CreateDirectory? || a.CreateRecord? || a.Enqueue? || a.AbandonSubmit? || a.Cancel? || a.CancelRaised?
      || a.Resume?
    || (a.SetState? && a.state != COMPLETED)
  }

  ghost predicate QuietSteps(before: seq<Action>, after: seq<Action>) {
    before <= after && forall n :: |before| <= n < |after| ==> Quiet(after[n])
  }

  /** Steps of other threads alone. */
  ghost predicate ForeignSteps(before: seq<Action>, after: seq<Action>) {
    QuietSteps(before, after) && forall n :: |before| <= n < |after| ==> !after[n].SetState?
  }

  lemma OneForeign(before: seq<Action>, trace: seq<Action>, a: Action)
    requires ForeignSteps(before, trace) && Quiet(a) && !a.SetState?
    ensures ForeignSteps(before, trace + [a])
  {
  }

  lemma NoForeign(trace: seq<Action>)
    ensures ForeignSteps(trace, trace)
  {
  }

  lemma ForeignChain(a: seq<Action>, b: seq<Action>, c: seq<Action>)
    requires ForeignSteps(a, b) && ForeignSteps(b, c)
    ensures ForeignSteps(a, c)
  {
  }

  /** What one step of each quiet kind is. */
  lemma QuietNext(w: World, a: Action)
    requires Allowed(w, a) && Quiet(a)
    ensures Next(w, a).active == w.active && Next(w, a).popped == w.popped
            && w.cancelEvents.Keys <= Next(w, a).cancelEvents.Keys
  {
    hide CoversRecording, RetryAllowed, NewIdentities, Permitted;
  }

  /** A quiet step writes nothing, a new directory, or the snapshot of a job. */
  lemma QuietWrites(w: World, a: Action)
    requires Allowed(w, a) && Quiet(a) && WriteOf(w, a).Some?
    ensures WriteOf(w, a).value.PutRecord? || (WriteOf(w, a).value.NewDirectory? && WriteOf(w, a).value.job !in w.jobs)
    ensures WriteOf(w, a).value.PutRecord? && w.active == Some(WriteOf(w, a).value.job) ==>
              w.jobs[w.active.value].record.Some? ==> WriteOf(w, a).value.snapshot.state != COMPLETED
  {
    hide CoversRecording, RetryAllowed, NewIdentities, Permitted;
  }

  lemma RecordPut(disk: Disk, job: JobId, snapshot: Snapshot, active: Option<JobId>)
    requires job in disk && (active == Some(job) && disk[job].record.Some? ==> snapshot.state != COMPLETED)
    ensures OnlyRecordsChanged(disk, Apply(disk, PutRecord(job, snapshot)), active)
  {
  }

  lemma DirectoryPut(disk: Disk, job: JobId, plan: Plan, durationMs: int, active: Option<JobId>)
    requires job !in disk
    ensures OnlyRecordsChanged(disk, Apply(disk, NewDirectory(job, plan, durationMs)), active)
  {
  }

  lemma QuietStep(w: World, a: Action)
    requires Allowed(w, a) && Quiet(a)
    ensures OnlyRecordsChanged(w.jobs, Next(w, a).jobs, w.active)
    ensures Next(w, a).active == w.active && Next(w, a).popped == w.popped
            && w.cancelEvents.Keys <= Next(w, a).cancelEvents.Keys
  {
    hide Allowed, Next, WriteOf, Apply;
    QuietNext(w, a);
    JobsAfter(w, a);
    if WriteOf(w, a).Some? {
      QuietWrites(w, a);
      var write := WriteOf(w, a).value;
      if write.PutRecord? {
        RecordWrites(w, a);
        RecordPut(w.jobs, write.job, write.snapshot, w.active);
      } else {
        DirectoryPut(w.jobs, write.job, write.plan, write.durationMs, w.active);
      }
    }
  }

  /** Quiet steps change snapshots, never the work the scheduler thread has recorded. */
  lemma {:induction false} QuietKeepsWork(before: seq<Action>, after: seq<Action>)
    requires Run(after) && QuietSteps(before, after)
    ensures OnlyRecordsChanged(After(before).jobs, After(after).jobs, After(before).active)
    ensures After(after).active == After(before).active && After(after).popped == After(before).popped
    ensures After(before).cancelEvents.Keys <= After(after).cancelEvents.Keys
    decreases |after|
  {
    if |after| > |before| {
      var front := after[..|after| - 1];
      QuietKeepsWork(before, front);
      QuietStep(After(front), after[|after| - 1]);
    } else {
      assert before == after;
    }
  }

  /** The event of the active job is raised, and no submit is about to replace it. */
  predicate Raised(w: World, j: JobId) {
    j in w.jobs && w.active == Some(j) && j !in w.submitting && j in w.cancelEvents && w.cancelEvents[j]
  }

  lemma QuietStepRaised(w: World, a: Action, j: JobId)
    requires Allowed(w, a) && Quiet(a) && Raised(w, j)
    ensures Raised(Next(w, a), j)
  {
    hide CoversRecording, RetryAllowed, NewIdentities, Permitted;
  }

  lemma {:induction false} QuietKeepsRaised(before: seq<Action>, after: seq<Action>, j: JobId)
    requires Run(after) && QuietSteps(before, after) && Raised(After(before), j)
    ensures Raised(After(after), j)
    decreases |after|
  {
    hide Raised;
    if |after| > |before| {
      var front := after[..|after| - 1];
      QuietKeepsRaised(before, front, j);
      QuietStepRaised(After(front), after[|after| - 1], j);
    } else {
      assert before == after;
    }
  }

  /** The scan has been through all jobs but those of `todo`. */
  ghost predicate Scanned(before: Disk, disk: Disk, todo: set<JobId>) {
    forall j :: HasJob(before, j) ==> HasJob(disk, j) && (j in todo || Recovered(disk[j]))
  }

  lemma NothingScanned(disk: Disk)
    ensures Scanned(disk, disk, disk.Keys)
  {
  }

  lemma ScanStep(before: Disk, disk: Disk, disk': Disk, todo: set<JobId>, job: JobId)
    requires Scanned(before, disk, todo) && forall j :: j in disk && j != job ==> j in disk' && disk'[j] == disk[j]
    requires HasJob(disk, job) ==> HasJob(disk', job) && Recovered(disk'[job])
    ensures Scanned(before, disk', todo - {job})
  {
  }

  lemma CancelSnapshotKeeps(snapshot: Snapshot, active: bool)
    ensures CancelSnapshot(snapshot, active).provenance == snapshot.provenance
  {
  }

  lemma NotSubmitting(trace: seq<Action>, job: JobId)
    requires Run(trace) && job !in After(trace).jobs
    ensures job !in After(trace).submitting
  {
    ReachableGood(trace);
  }

  lemma OnGoodDisk(trace: seq<Action>, job: JobId)
    requires Run(trace) && job in After(trace).jobs
    ensures var f := After(trace).jobs[job]; Intact(f) && AttemptsEnded(f) && Scheduled(f)
  {
    ReachableGood(trace);
  }

  /** What the startup scan leaves: a job that has ended, or one that waits to be resumed. */
  predicate Recovered(f: Files) { f.Finished() || f.InState(RECOVERY_REQUIRED) }

  /** The job has not ended, or was ended as cancelled. */
  predicate OpenOrCancelled(f: Files) { f.record.Some? && (f.Finished() ==> f.InState(CANCELLED)) }

  /** The active job is in this state, or another thread ended it as cancelled. */
  predicate HeldIn(w: World, j: JobId, state: JobState) {
    j in w.jobs && w.active == Some(j) && (w.jobs[j].InState(state) || w.jobs[j].InState(CANCELLED))
  }

  lemma ForeignStepState(w: World, a: Action, j: JobId, state: JobState)
    requires Allowed(w, a) && Quiet(a) && !a.SetState? && HeldIn(w, j, state)
    ensures HeldIn(Next(w, a), j, state)
  {
    hide CoversRecording, RetryAllowed, NewIdentities, Permitted;
  }

  lemma {:induction false} ForeignKeepsState(before: seq<Action>, after: seq<Action>, j: JobId, state: JobState)
    requires Run(after) && ForeignSteps(before, after) && HeldIn(After(before), j, state)
    ensures HeldIn(After(after), j, state)
    decreases |after|
  {
    hide HeldIn;
    if |after| > |before| {
      var front := after[..|after| - 1];
      ForeignKeepsState(before, front, j, state);
      ForeignStepState(After(front), after[|after| - 1], j, state);
    } else {
      assert before == after;
    }
  }

  ghost function CreationSteps(job: JobId, plan: Plan, durationMs: int, provenance: Provenance, count: nat,
                               ok: bool): seq<Action> {
    (if count > 0 then [CreateDirectory(job, plan, durationMs)] else [])
    + (if count > 1 then [CreateRecord(job, provenance)] else [])
    + (if count > 0 && !ok then [AbandonSubmit(job)] else [])
  }

  lemma CreationIsForeign(trace: seq<Action>, job: JobId, plan: Plan, durationMs: int, provenance: Provenance,
                          count: nat, ok: bool)
    ensures ForeignSteps(trace, trace + CreationSteps(job, plan, durationMs, provenance, count, ok))
  {
  }

  lemma SameRemaining(f: Files, g: Files)
    requires SameWork(f, g)
    ensures Remaining(f) == Remaining(g)
  {
  }

  /** What may be retried, and what is left to do, depends on the recorded work alone. */
  lemma SameWorkRetries(f: Files, g: Files, id: WindowId, ws: seq<WindowSpec>)
    requires SameWork(f, g) && id in f.plan && id in f.checkpoints
    ensures RetryAllowed(f, id, ws) == RetryAllowed(g, id, ws) && Remaining(f) == Remaining(g)
  {
    hide RetryWindows;
  }

  lemma SameWorkItself(f: Files)
    ensures SameWork(f, f)
  {
  }

  lemma SameWorkChain(f: Files, g: Files, h: Files)
    requires SameWork(f, g) && SameWork(g, h)
    ensures SameWork(f, h)
  {
  }

  /** The files after both halves of _merge and whatever other threads did meanwhile. */
  lemma MergedFiles(job: JobId, f: Files, g: Files, h: Files, k: Files, speakers: string, merged: string)
    requires SameWork(f, g) && SameDerived(Replace(f, PutSpeakerState(job, speakers)), g)
    requires SameWork(g, h) && SameDerived(Replace(g, PutMerged(job, merged)), h)
    requires SameWork(h, k) && SameDerived(h, k)
    ensures k.speakerState == speakers && k.merged == merged && k.transcribed == k.AllDone()
  {
  }

  lemma ActivateNext(w: World, job: JobId)
    requires w.up && w.popped == Some(job) && w.active.None? && NonTerminal(w, job)
    ensures Allowed(w, Activate(job)) && Next(w, Activate(job)) == w.(active := Some(job))
  {
  }

  lemma CancelNext(w: World, job: JobId)
    requires w.up && NonTerminal(w, job)
    ensures Allowed(w, Action.Cancel(job)) && Allowed(w, CancelRaised(job))
    ensures Next(w, CancelRaised(job)) == w.(cancelEvents := w.cancelEvents[job := true])
    ensures var next := CancelSnapshot(w.jobs[job].record.value, w.active == Some(job));
            Next(w, Action.Cancel(job))
            == w.(jobs := Apply(w.jobs, PutRecord(job, next)), cancelled := w.cancelled + {job},
                  cancelEvents := w.cancelEvents[job := true])
  {
  }

  lemma ResumeNext(w: World, job: JobId)
    requires w.up && NonTerminal(w, job)
    ensures Allowed(w, Resume(job))
    ensures var s := w.jobs[job].record.value;
            Next(w, Resume(job)) ==
            if s.error == Some(CancelRequested) then
              w.(jobs := Apply(w.jobs, PutRecord(job, NextSnapshot(s, CANCELLED, None))))
            else if job in w.queue || w.active == Some(job) then w
            else w.(queue := w.queue + [job], cancelEvents := w.cancelEvents[job := false])
  {
  }

  lemma SetStateNext(w: World, job: JobId, state: JobState, error: Option<ErrorCode>)
    requires w.up && NonTerminal(w, job)
    requires state == COMPLETED ==>
               && w.active == Some(job) && w.jobs[job].transcribed && job in w.cancelEvents && !w.cancelEvents[job]
    ensures var a := SetState(job, state, error);
            Allowed(w, a) && Next(w, a)
                             == w.(jobs := Apply(w.jobs, PutRecord(job, NextSnapshot(w.jobs[job].record.value, state,
                                                                                     error))))
  {
  }

  lemma RecoverNext(w: World, job: JobId)
    requires !w.up && NonTerminal(w, job)
    ensures var next := NextSnapshot(w.jobs[job].record.value, RECOVERY_REQUIRED, Some(RecoveryError));
            Allowed(w, Recover(job)) && Next(w, Recover(job)) == w.(jobs := Apply(w.jobs, PutRecord(job, next)))
  {
  }

  /** A job that the scheduler holds, in a reachable state. */
  lemma HeldGood(w: World, job: JobId)
    requires Good(w) && Held(w, job)
    ensures job in w.cancelEvents && job in w.jobs && Scheduled(w.jobs[job])
  {
    hide Scheduled;
  }

  lemma DirectoryNext(w: World, job: JobId, plan: Plan, durationMs: int)
    requires w.up && job !in w.jobs && durationMs > 0 && CoversRecording(plan, durationMs)
    ensures var a := CreateDirectory(job, plan, durationMs);
            && Allowed(w, a)
            && Next(w, a)
              == w.(jobs := Apply(w.jobs, NewDirectory(job, plan, durationMs)), submitting := w.submitting + {job})
  {
  }

  lemma RecordNext(w: World, job: JobId, provenance: Provenance)
    requires w.up && job in w.submitting && job in w.jobs && w.jobs[job].record.None?
    ensures var a := CreateRecord(job, provenance);
            && Allowed(w, a)
            && Next(w, a) == w.(jobs := Apply(w.jobs, PutRecord(job, Snapshot(QUEUED, provenance, 0.0, None))))
  {
  }

  lemma AbandonNext(w: World, job: JobId)
    requires w.up && job in w.submitting
    ensures var a := AbandonSubmit(job); Allowed(w, a) && Next(w, a) == w.(submitting := w.submitting - {job})
  {
  }

  /** The files of a new job, as far as they were written, as steps of the machine. */
  lemma CreationRun(trace: seq<Action>, job: JobId, plan: Plan, durationMs: int, provenance: Provenance, count: nat,
                    ok: bool)
    requires Run(trace) && After(trace).up && job !in After(trace).jobs && job !in After(trace).submitting
    requires durationMs > 0 && CoversRecording(plan, durationMs) && count <= 2 && (ok ==> count == 2)
    ensures var steps := CreationSteps(job, plan, durationMs, provenance, count, ok);
            var w := After(trace);
            var directory := Apply(w.jobs, NewDirectory(job, plan, durationMs));
            var record := Apply(directory, PutRecord(job, Snapshot(QUEUED, provenance, 0.0, None)));
            && Run(trace + steps) && QuietSteps(trace, trace + steps)
            && After(trace + steps)
              == w.(jobs := if count == 0 then w.jobs else if count == 1 then directory else record,
                                          submitting := if ok then w.submitting + {job} else w.submitting)
  {
    hide Run, After, Allowed, Next, CoversRecording, Apply, QuietSteps, CreationSteps;
    StepsOfCreation(trace, job, plan, durationMs, provenance, count, ok);
    if count > 0 {
      var w := After(trace);
      var t1 := trace + [CreateDirectory(job, plan, durationMs)];
      DirectoryNext(w, job, plan, durationMs);
      OneMore(trace, CreateDirectory(job, plan, durationMs));
      var t2 := if count > 1 then t1 + [CreateRecord(job, provenance)] else t1;
      if count > 1 {
        DirectoryExists(w.jobs, job, plan, durationMs);
        RecordNext(After(t1), job, provenance);
        OneMore(t1, CreateRecord(job, provenance));
      }
      if !ok {
        AbandonNext(After(t2), job);
        OneMore(t2, AbandonSubmit(job));
        assert w.submitting + {job} - {job} == w.submitting;
      }
    }
  }

  lemma DirectoryExists(disk: Disk, job: JobId, plan: Plan, durationMs: int)
    ensures var directory := Apply(disk, NewDirectory(job, plan, durationMs));
            job in directory && directory[job].record.None?
  {
  }

  /** The steps one after the other. */
  lemma StepsOfCreation(trace: seq<Action>, job: JobId, plan: Plan, durationMs: int, provenance: Provenance,
                        count: nat, ok: bool)
    requires count <= 2 && (ok ==> count == 2)
    ensures var steps := CreationSteps(job, plan, durationMs, provenance, count, ok);
            var t1 := trace + [CreateDirectory(job, plan, durationMs)];
            var t2 := if count > 1 then t1 + [CreateRecord(job, provenance)] else t1;
            && QuietSteps(trace, trace + steps)
            && trace + steps == if count == 0 then trace else if ok then t2 else t2 + [AbandonSubmit(job)]
  {
  }

  ghost predicate ReplanPossible(f: Files, change: Replacement) {
    && change.id in f.plan && change.id in f.checkpoints && f.checkpoints[change.id].state.Failed?
    && |change.newIds| == |change.windows| && NewIdentities(f, change.newIds)
    && RetryAllowed(f, change.id, change.windows)
  }

  function PlanAfter(f: Files, change: Replacement): Plan
    requires |change.newIds| == |change.windows| && Distinct(change.newIds)
  {
    Replanned(f.plan, change.id, change.newIds, change.windows)
  }

  ghost function ReplanSteps(job: JobId, change: Replacement, count: nat): seq<Action> {
    (if count > 0 then [Replan(job, change.id, change.newIds, change.windows)] else [])
    + (if count > 1 then [SetState(job, PREPARING, None)] else [])
  }

  lemma ReplanNext(w: World, job: JobId, change: Replacement)
    requires w.up && w.active == Some(job) && NonTerminal(w, job) && ReplanPossible(w.jobs[job], change)
    ensures var a := Replan(job, change.id, change.newIds, change.windows);
            && Allowed(w, a)
            && Next(w, a) == w.(jobs := Apply(w.jobs, PutPlan(job, PlanAfter(w.jobs[job], change))))
  {
  }

  lemma PlanAfterKeeps(f: Files, change: Replacement)
    requires Intact(f) && Scheduled(f) && ReplanPossible(f, change)
    ensures PlanKeepsAttempts(f, PlanAfter(f, change))
  {
    ReplanKeepsAttempts(f, change.id, change.newIds, change.windows);
  }

  /** The plan file and then the snapshot, as far as they were written. */
  lemma ReplanRun(trace: seq<Action>, job: JobId, change: Replacement, count: nat)
    requires var w := After(trace);
             Run(trace) && w.up && w.active == Some(job) && NonTerminal(w, job) && ReplanPossible(w.jobs[job], change)
    ensures var w := After(trace);
            var planned := Apply(w.jobs, PutPlan(job, PlanAfter(w.jobs[job], change)));
            var snapshot := NextSnapshot(w.jobs[job].record.value, PREPARING, None);
            var steps := ReplanSteps(job, change, count);
            && Run(trace + steps)
            && After(trace + steps) ==
               w.(jobs := if count == 0 then w.jobs else if count == 1 then planned
                  else Apply(planned, PutRecord(job, snapshot)))
  {
    hide Allowed, Next, Run, After, Permitted, Replanned;
    if count > 0 {
      var t1 := trace + [Replan(job, change.id, change.newIds, change.windows)];
      ReplanNext(After(trace), job, change);
      OneMore(trace, Replan(job, change.id, change.newIds, change.windows));
      if count > 1 {
        SetStateNext(After(t1), job, PREPARING, None);
        OneMore(t1, SetState(job, PREPARING, None));
        assert trace + ReplanSteps(job, change, count) == t1 + [SetState(job, PREPARING, None)];
      } else {
        assert trace + ReplanSteps(job, change, count) == t1;
      }
    } else {
      assert trace + ReplanSteps(job, change, count) == trace;
    }
  }

  ghost function AttemptSteps(job: JobId, r: WindowResult, count: nat): seq<Action> {
    (if count > 0 then [WriteRaw(job, r.windowId, r.raw)] else [])
      + (if count > 1 then [WriteCheckpoint(job, r)] else [])
  }

  lemma AttemptNext(w: World, job: JobId, r: WindowResult)
    requires w.up && w.active == Some(job) && job in w.jobs && w.jobs[job].Open() && r.Terminal()
    requires ResultMatches(w.jobs[job], r) && !w.jobs[job].TerminalAt(r.windowId)
    ensures var raw := WriteRaw(job, r.windowId, r.raw);
            var w1 := w.(jobs := Apply(w.jobs, PutRaw(job, r.windowId, r.raw)));
            var w2 := w.(jobs := Apply(w1.jobs, PutCheckpoint(job, r)));
            && Allowed(w, raw) && Next(w, raw) == w1
            && Allowed(w1, WriteCheckpoint(job, r)) && Next(w1, WriteCheckpoint(job, r)) == w2
  {
  }

  /** Raw text and then the checkpoint, as far as they were written. */
  lemma AttemptRun(trace: seq<Action>, job: JobId, r: WindowResult, count: nat)
    requires var w := After(trace);
             && Run(trace) && w.up && w.active == Some(job) && job in w.jobs && w.jobs[job].Open() && r.Terminal()
             && ResultMatches(w.jobs[job], r) && !w.jobs[job].TerminalAt(r.windowId)
    ensures var w := After(trace);
            var text := Apply(w.jobs, PutRaw(job, r.windowId, r.raw));
            var steps := AttemptSteps(job, r, count);
            && Run(trace + steps)
            && After(trace + steps) ==
               w.(jobs := if count == 0 then w.jobs else if count == 1 then text
                  else Apply(text, PutCheckpoint(job, r)))
  {
    AttemptNext(After(trace), job, r);
    if count > 0 {
      var t1 := trace + [WriteRaw(job, r.windowId, r.raw)];
      OneMore(trace, WriteRaw(job, r.windowId, r.raw));
      if count > 1 {
        OneMore(t1, WriteCheckpoint(job, r));
        assert trace + AttemptSteps(job, r, count) == t1 + [WriteCheckpoint(job, r)];
      } else {
        assert trace + AttemptSteps(job, r, count) == t1;
      }
    } else {
      assert trace + AttemptSteps(job, r, count) == trace;
    }
  }

  /** What the scheduler loop can still do to a job: plan new identities, end attempts. */
  ghost function Remaining(f: Files): int { 2 * (3 * f.initial + 1) - |f.ever| - |f.checkpoints| }

  lemma RemainingBounded(f: Files)
    requires Scheduled(f)
    ensures Remaining(f) >= 0
  {
    SubsetSize(f.checkpoints.Keys, f.ever);
  }

  lemma ReplanProgress(f: Files, g: Files, change: Replacement)
    requires Scheduled(f) && ReplanPossible(f, change) && SameWork(AfterReplan(f, PlanAfter(f, change)), g)
    ensures Remaining(g) < Remaining(f)
  {
    ReplanIdentities(f, change.id, change.newIds, change.windows);
    RetryGood(f, change.id, change.windows);
  }

  lemma AttemptProgress(f: Files, r: WindowResult)
    requires Scheduled(f) && !f.TerminalAt(r.windowId)
    ensures Remaining(WithAttempt(f, r)) < Remaining(f)
  {
    assert r.windowId !in f.checkpoints;
  }

  predicate AllNative(states: seq<JobState>) { forall i :: 0 <= i < |states| ==> states[i].Native() }

  /** How one turn of the scheduler loop ends. */
  datatype Turn = Again | AllWindowsDone | Ended(ok: bool)

  datatype Choice = Substitute(windows: seq<WindowSpec>) | Fail(error: Option<ErrorCode>) | Raise

  /** Identities in the order of their names, `retry-...` before `w0001`, `w0002` and so on. */
  predicate NameBefore(a: WindowId, b: WindowId) {
    match (a, b)
    case (Retry(_), Initial(_)) => true
    case (Initial(_), Retry(_)) => false
    case (Retry(m), Retry(n)) => m < n
    case (Initial(m), Initial(n)) => m < n
  }

  /** `a` is served before `b`. */
  predicate ServedBefore(f: Files, a: WindowId, b: WindowId)
    requires a in f.plan && b in f.plan
  {
    f.plan[a].startMs < f.plan[b].startMs || (f.plan[a].startMs == f.plan[b].startMs && NameBefore(a, b))
  }

  /** The pending window with the earliest start, by name among those that start together, or
      None when every planned window is done. */
  method EarliestPending(f: Files) returns (r: Option<WindowId>)
    ensures r.None? <==> f.AllDone()
    ensures r.Some? ==> && r.value in f.plan && !f.DoneAt(r.value)
                        && forall id :: id in f.plan && !f.DoneAt(id) && id != r.value ==> ServedBefore(f, r.value, id)
  {
    r := None;
    var todo := f.plan.Keys;
    while todo != {}
      invariant todo <= f.plan.Keys
      invariant r.None? ==> forall id :: id in f.plan.Keys - todo ==> f.DoneAt(id)
      invariant r.Some? ==> && r.value in f.plan && !f.DoneAt(r.value) && r.value !in todo
                            && forall id :: id in f.plan.Keys - todo && !f.DoneAt(id) && id != r.value ==>
                                ServedBefore(f, r.value, id)
      decreases todo
    {
      var id :| id in todo;
      todo := todo - {id};
      if !f.DoneAt(id) && (r.None? || ServedBefore(f, id, r.value)) {
        r := Some(id);
      }
    }
  }

  /** The failed attempt recorded for a child that crashed. */
  function CrashResult(id: WindowId, f: Files, detail: string): WindowResult
    requires id in f.plan && f.record.Some?
  {
    WindowResult(id, f.plan[id], Failed, f.record.value.provenance, "", [], Some(ChildCrashed(detail)))
  }

  /** The failed attempt recorded for a window that does not fit the context. */
  function BudgetResult(id: WindowId, f: Files): WindowResult
    requires id in f.plan && f.record.Some?
  {
    WindowResult(id, f.plan[id], Failed, f.record.value.provenance, "", [], Some(BudgetExceeded))
  }

  // ----- how a job ends -----

  /** Every window of the next tier fits the context. */
  ghost predicate RetryFits(w: WindowSpec, counter: Counter) {
    forall i :: 0 <= i < |RetryWindows(w)| ==> Fits(counter(RetryWindows(w)[i].startMs, RetryWindows(w)[i].endMs))
  }

  /** A failed window gets new windows: once after a crash, else if its error allows a tier that fits. */
  ghost predicate Replaceable(f: Files, id: WindowId, counter: Counter)
    requires id in f.plan && id in f.checkpoints
  {
    CanRetry(f, id) && (f.checkpoints[id].Crash() || RetryFits(f.plan[id], counter))
  }

  /** A failed window that ends its job. */
  ghost predicate Hopeless(f: Files, id: WindowId, counter: Counter) {
    id in f.plan && id in f.checkpoints && f.checkpoints[id].state.Failed? && !Replaceable(f, id, counter)
  }

  /** The error that such a window leaves in the snapshot. */
  function FailureOf(f: Files, id: WindowId): Option<ErrorCode>
    requires id in f.checkpoints
  {
    var r := f.checkpoints[id];
    if r.Crash() then r.error
    else if r.error.Some? && r.error.value.Retryable() then Some(Other("retry exhausted"))
    else if r.error.Some? then r.error else Some(WindowFailed)
  }

  ghost predicate FailedFor(f: Files, id: WindowId, counter: Counter) {
    Hopeless(f, id, counter) && f.record.Some? && f.record.value.error == FailureOf(f, id)
  }

  /** The pending window that is served next. */
  ghost predicate Earliest(f: Files, id: WindowId) {
    && id in f.plan && !f.DoneAt(id)
    && forall k :: k in f.plan && !f.DoneAt(k) && k != id ==> ServedBefore(f, id, k)
  }

  /** The windows that replace a failed one. */
  function Substitutes(f: Files, id: WindowId): seq<WindowSpec>
    requires id in f.plan && id in f.checkpoints
  {
    if f.checkpoints[id].Crash() then [f.plan[id]] else RetryWindows(f.plan[id])
  }

  ghost predicate ReplacedBy(f: Files, g: Files, id: WindowId, newIds: seq<WindowId>)
    requires id in f.plan && id in f.checkpoints
  {
    && g.checkpoints == f.checkpoints && NewIdentities(f, newIds) && |newIds| == |Substitutes(f, id)|
    && g.plan == Replanned(f.plan, id, newIds, Substitutes(f, id))
  }

  /** One attempt at a window, over budget or not. */
  ghost predicate AttemptedAt(f: Files, g: Files, id: WindowId, counter: Counter)
    requires id in f.plan
  {
    && g.plan == f.plan && id in g.checkpoints && g.checkpoints == f.checkpoints[id := g.checkpoints[id]]
    && g.checkpoints[id].Terminal() && g.checkpoints[id].windowId == id && g.checkpoints[id].window == f.plan[id]
    && (!Fits(counter(f.plan[id].startMs, f.plan[id].endMs)) ==>
          g.checkpoints[id].state.Failed? && g.checkpoints[id].error == Some(BudgetExceeded))
  }

  ghost predicate EarliestHopeless(f: Files, id: WindowId, counter: Counter) {
    Earliest(f, id) && Hopeless(f, id, counter)
  }

  /** What one turn of the loop does to the work: the earliest pending window is replaced if an
      attempt at it failed and can be repeated, and attempted otherwise. */
  ghost predicate TurnAt(f: Files, g: Files, id: WindowId, counter: Counter) {
    && Earliest(f, id)
    && (id in f.checkpoints ==>
          !Hopeless(f, id, counter) && exists newIds :: ReplacedBy(f, g, id, newIds))
    && (id !in f.checkpoints ==> AttemptedAt(f, g, id, counter))
  }

  /** Which window is hopeless, and what a turn does, depends on the recorded work alone. */
  lemma SameWorkTurn(f: Files, f': Files, g: Files, id: WindowId, counter: Counter)
    requires SameWork(f, f') && TurnAt(f', g, id, counter)
    ensures TurnAt(f, g, id, counter)
  {
    hide Replanned, NewIdentities, RetryWindows, Replaceable, AttemptedAt;
    SameWorkHopeless(f, f', id, counter);
    SameWorkEarliest(f, f', id);
    if id in f.checkpoints {
      var newIds :| ReplacedBy(f', g, id, newIds);
      SameIdentities(f, f', newIds);
      assert ReplacedBy(f, g, id, newIds);
    } else {
      SameWorkAttempt(f, f', g, id, counter);
    }
  }

  lemma SameWorkEarliest(f: Files, g: Files, id: WindowId)
    requires SameWork(f, g)
    ensures Earliest(f, id) == Earliest(g, id)
  {
  }

  lemma SameIdentities(f: Files, g: Files, newIds: seq<WindowId>)
    requires SameWork(f, g)
    ensures NewIdentities(f, newIds) == NewIdentities(g, newIds)
  {
  }

  lemma SameWorkAttempt(f: Files, f': Files, g: Files, id: WindowId, counter: Counter)
    requires SameWork(f, f') && id in f.plan && AttemptedAt(f', g, id, counter)
    ensures AttemptedAt(f, g, id, counter)
  {
  }

  lemma SameWorkHopeless(f: Files, g: Files, id: WindowId, counter: Counter)
    requires SameWork(f, g)
    ensures Hopeless(f, id, counter) == Hopeless(g, id, counter)
  {
    hide RetryFits;
  }

  lemma AttemptIs(f: Files, g: Files, h: Files, id: WindowId, result: WindowResult, counter: Counter)
    requires SameWork(f, g) && h.plan == g.plan && h.checkpoints == g.checkpoints[id := result]
    requires id in f.plan && Fits(counter(f.plan[id].startMs, f.plan[id].endMs))
    requires result.Terminal() && result.windowId == id && result.window == g.plan[id]
    ensures AttemptedAt(f, h, id, counter)
  {
  }

  lemma FailureStays(f: Files, g: Files, id: WindowId, counter: Counter)
    requires SameWork(f, g) && id in f.plan && id in f.checkpoints
    ensures FailureOf(f, id) == FailureOf(g, id) && Replaceable(f, id, counter) == Replaceable(g, id, counter)
  {
    hide RetryFits;
  }

  lemma ReplacementIs(f: Files, g: Files, h: Files, change: Replacement)
    requires SameWork(f, g) && ReplanPossible(g, change)
    requires h.checkpoints == g.checkpoints && h.plan == PlanAfter(g, change)
    ensures exists newIds :: ReplacedBy(f, h, change.id, newIds)
  {
    hide RetryWindows, Replanned;
    SameIdentities(f, g, change.newIds);
    assert ReplacedBy(f, h, change.id, change.newIds);
  }

  /** Each job that waited at first still waits or has ended. */
  predicate ServedOrQueued(first: seq<JobId>, queue: seq<JobId>, disk: Disk, disk': Disk) {
    forall j :: j in first && HasJob(disk, j) ==> HasJob(disk', j) && (j in queue || disk'[j].Finished())
  }

  lemma StillServed(first: seq<JobId>, queue: seq<JobId>, queue': seq<JobId>, job: JobId, disk: Disk, disk': Disk,
                    disk'': Disk)
    requires queue != [] && job == queue[0] && queue[1..] <= queue' && ServedOrQueued(first, queue, disk, disk')
    requires JobsKept(disk', disk'') && (HasJob(disk', job) ==> disk''[job].Finished())
    ensures ServedOrQueued(first, queue', disk, disk'')
  {
    forall j | j in first && HasJob(disk, j)
      ensures HasJob(disk'', j) && (j in queue' || disk''[j].Finished())
    {
      if j in queue && j != job {
        assert j in queue[1..];
        assert queue' == queue[1..] + queue'[|queue| - 1..];
      }
    }
  }

  /** No job disappears, and one that has ended stays so. */
  ghost predicate JobsKept(disk: Disk, disk': Disk) {
    forall j :: HasJob(disk, j) ==> HasJob(disk', j) && (disk[j].Finished() ==> disk'[j].Finished())
  }

  lemma JobsStay(before: seq<Action>, after: seq<Action>)
    requires Run(after) && before <= after && After(after).up
    ensures JobsKept(After(before).jobs, After(after).jobs)
  {
    hide Run, After;
    assert after[..|before|] == before;
    EvidenceIsPermanent(after, |before|);
  }

  class MossSupervisor {
    const spool: MossSpool
    const counter: Counter
    const merging: Merging
    /** A dependable child starts, and ends every request with a crash, an answer that fits the
        request, or a stop for a cancel that was raised. */
    const dependable: bool
    var queue: seq<JobId>
    var active: Option<JobId>
    var cancelEvents: map<JobId, bool>
    var childRunning: bool
    var calls: seq<Call>
    ghost var popped: Option<JobId>
    var submitting: set<JobId>
    ghost var cancelled: set<JobId>
    ghost var trace: seq<Action>

    ghost function World(up: bool): World reads this, spool {
      Scheduling.World(spool.jobs, up, queue, popped, active, cancelEvents, submitting, cancelled)
    }

    ghost predicate Valid() reads this, spool {
      spool.Valid() && Run(trace) && After(trace) == World(true)
    }

    /** What a run that did not raise leaves: CANCELLED with its cancel event raised, FAILED for a
        hopeless window, or COMPLETED with all windows done and merged and no cancel raised. */
    ghost predicate EndedRightly(job: JobId) reads this, spool {
      && HasJob(spool.jobs, job) && job in cancelEvents
      && var f := spool.jobs[job];
      match f.record.value.state
      case CANCELLED => cancelEvents[job]
      case FAILED => exists id :: FailedFor(f, id, counter)
      case COMPLETED => !cancelEvents[job] && f.transcribed && f.AllDone()
      case _ => false
    }

    /** Disk and child behave: nothing raises that does not have to. */
    predicate Reliable() { spool.reliable && dependable }

    /** The job is still open, or was ended as cancelled. */
    ghost predicate Steady(job: JobId) reads this, spool {
      job in spool.jobs && OpenOrCancelled(spool.jobs[job])
    }

    ghost predicate WasCancelled(job: JobId) reads this, spool {
      job in spool.jobs && spool.jobs[job].InState(CANCELLED)
    }

    /** A new supervisor over the spool an earlier process left behind: every job that
        had not ended becomes RECOVERY_REQUIRED, unless its record cannot be updated. */
    constructor (spool: MossSpool, counter: Counter, merging: Merging, dependable: bool, calls: seq<Call>,
                 ghost past: seq<Action>)
      requires spool.Valid() && Run(past) && !After(past).up && After(past).jobs == spool.jobs
      modifies spool
      ensures Valid() && past <= trace
      ensures queue == [] && active.None? && cancelEvents == map[] && !childRunning
      ensures this.spool == spool && this.calls == calls && this.counter == counter && this.merging == merging
      ensures this.dependable == dependable
      ensures spool.reliable ==> Scanned(old(spool.jobs), spool.jobs, {})
    {
      hide Run, After, Scanned;
      this.spool, this.counter, this.merging, this.calls := spool, counter, merging, calls;
      this.dependable := dependable;
      queue, active, cancelEvents, childRunning := [], None, map[], false;
      popped, submitting, cancelled, trace := None, {}, After(past).cancelled, past;
      new;
      ReachableGood(past);
      var todo := spool.jobs.Keys;
      NothingScanned(spool.jobs);
      while todo != {}
        invariant spool.Valid() && Run(trace) && past <= trace && After(trace) == World(false)
        invariant queue == [] && active.None? && cancelEvents == map[] && !childRunning
        invariant this.spool == spool && this.calls == calls && this.counter == counter && this.merging == merging
        invariant this.dependable == dependable
        invariant spool.reliable ==> Scanned(old(spool.jobs), spool.jobs, todo)
        decreases todo
      {
        var job :| job in todo;
        ghost var before, disk := todo, spool.jobs;
        todo := todo - {job};
        var _, _ := RecoverJob(job);
        if spool.reliable {
          ScanStep(old(spool.jobs), disk, spool.jobs, before, job);
        }
      }
      OneMore(trace, Boot);
      trace := trace + [Boot];
    }

    /** One job of the startup scan; a job that cannot be read or written keeps its record. */
    method RecoverJob(job: JobId) returns (loaded: bool, ok: bool)
      requires spool.Valid() && Run(trace) && After(trace) == World(false)
      modifies this`trace, spool
      ensures spool.Valid() && Run(trace) && After(trace) == World(false)
      ensures trace == old(trace) || trace == old(trace) + [Recover(job)]
      ensures loaded ==> HasJob(old(spool.jobs), job)
      ensures ok ==> loaded && HasJob(spool.jobs, job) && Recovered(spool.jobs[job])
      ensures spool.reliable && HasJob(old(spool.jobs), job) ==> ok
      ensures forall j :: j in old(spool.jobs) && j != job ==> j in spool.jobs && spool.jobs[j] == old(spool.jobs)[j]
      ensures loaded && (old(spool.jobs)[job].Finished() || old(spool.jobs)[job].InState(RECOVERY_REQUIRED)) ==>
                trace == old(trace)
    {
      hide Run, After, Next, Allowed, Scheduled, Intact;
      if job in spool.jobs {
        OnGoodDisk(trace, job);
      }
      var record := spool.LoadJob(job);
      loaded := record.Success?;
      ok := loaded;
      if record.Success? && !record.value.state.Terminal() && record.value.state != RECOVERY_REQUIRED {
        RecoverNext(After(trace), job);
        var next := NextSnapshot(record.value, RECOVERY_REQUIRED, Some(RecoveryError));
        ghost var count;
        ok, count := spool.SaveJob(job, next, None);
        if count > 0 {
          OneMore(trace, Recover(job));
          trace := trace + [Recover(job)];
        }
      }
    }

    // ----- calls of other threads -----

    /** cancel: raise the event and leave the request, or the CANCELLED state, on disk. */
    method CancelJob(job: JobId) returns (r: Result<Snapshot, StoreError>)
      requires Valid()
      modifies this`cancelEvents, this`cancelled, this`trace, spool
      ensures Valid() && ForeignSteps(old(trace), trace)
      ensures r.Success? ==> job in spool.jobs && spool.jobs[job].record == Some(r.value)
      ensures r.Success? && HasJob(old(spool.jobs), job) && !old(spool.jobs)[job].Finished() ==>
                && job in cancelled
                && r.value == CancelSnapshot(old(spool.jobs)[job].record.value, active == Some(job))
      ensures spool.reliable && HasJob(old(spool.jobs), job) ==> r.Success?
    {
      r := spool.LoadJob(job);
      if r.Success? && !r.value.state.Terminal() {
        r := RequestCancel(job, r.value);
      }
    }

    method RequestCancel(job: JobId, snapshot: Snapshot) returns (r: Result<Snapshot, StoreError>)
      requires Valid() && job in spool.jobs && spool.jobs[job].record == Some(snapshot) && !snapshot.state.Terminal()
      modifies this`cancelEvents, this`cancelled, this`trace, spool
      ensures Valid() && ForeignSteps(old(trace), trace)
      ensures r.Success? ==> r.value == CancelSnapshot(snapshot, active == Some(job)) && job in cancelled
      ensures r.Success? ==> job in spool.jobs && spool.jobs[job].record == Some(r.value)
      ensures spool.reliable ==> r.Success?
    {
      hide Run, After, Next, Allowed, CancelSnapshot, ForeignSteps, QuietSteps, Scheduled, Intact;
      OnGoodDisk(trace, job);
      CancelSnapshotKeeps(snapshot, active == Some(job));
      NoForeign(trace);
      OneForeign(trace, trace, Action.Cancel(job));
      OneForeign(trace, trace, CancelRaised(job));
      CancelNext(After(trace), job);
      cancelEvents := cancelEvents[job := true];
      var next := CancelSnapshot(snapshot, active == Some(job));
      var ok, count := spool.SaveJob(job, next, None);
      if count > 0 {
        OneMore(trace, Action.Cancel(job));
        trace, cancelled := trace + [Action.Cancel(job)], cancelled + {job};
      } else {
        OneMore(trace, CancelRaised(job));
        trace := trace + [CancelRaised(job)];
      }
      r := if ok then Success(next) else Failure(Unavailable);
    }

    method ResumeJob(job: JobId) returns (r: Result<Snapshot, StoreError>)
      requires Valid()
      modifies this`queue, this`cancelEvents, this`trace, spool
      ensures Valid() && ForeignSteps(old(trace), trace)
      ensures |queue| <= |old(queue)| + 1
      ensures r.Failure? ==> queue == old(queue) && cancelEvents == old(cancelEvents)
      ensures r.Success? ==>
                && HasJob(old(spool.jobs), job)
                && var s := old(spool.jobs)[job].record.value;
                if s.state.Terminal() then
                  r.value == s && trace == old(trace) && queue == old(queue) && cancelEvents == old(cancelEvents)
                else if s.error == Some(CancelRequested) then
                  && r.value == NextSnapshot(s, CANCELLED, None)
                    && spool.jobs == Apply(old(spool.jobs), PutRecord(job, r.value))
                  && queue == old(queue) && cancelEvents == old(cancelEvents)
                else
                  var waiting := job in old(queue) || active == Some(job);
                  && r.value == s && spool.jobs == old(spool.jobs)
                  && queue == (if waiting then old(queue) else old(queue) + [job])
                  && cancelEvents == (if waiting then old(cancelEvents) else old(cancelEvents)[job := false])
    {
      hide Run, After, Next, Allowed, NextSnapshot, ForeignSteps, QuietSteps;
      NoForeign(trace);
      OneForeign(trace, trace, Resume(job));
      var record := spool.LoadJob(job);
      if record.Failure? {
        return Failure(record.error);
      }
      var snapshot := record.value;
      if snapshot.state.Terminal() {
        return Success(snapshot);
      }
      ResumeNext(After(trace), job);
      var revisionMatches: bool := *;
      if !revisionMatches {
        return Failure(Mismatch);
      }
      if snapshot.error == Some(CancelRequested) {
        var next := NextSnapshot(snapshot, CANCELLED, None);
        var ok, count := spool.SaveJob(job, next, None);
        if count > 0 {
          OneMore(trace, Resume(job));
          trace := trace + [Resume(job)];
        }
        if !ok {
          return Failure(Unavailable);
        }
        return Success(next);
      }
      OneMore(trace, Resume(job));
      if job !in queue && active != Some(job) {
        queue, cancelEvents := queue + [job], cancelEvents[job := false];
      }
      trace := trace + [Resume(job)];
      return Success(snapshot);
    }

    /** The first half of submit: plan the windows and create the job's files. */
    method CreateJob(job: JobId, durationMs: int, provenance: Provenance) returns (ok: bool)
      requires Valid()
      modifies this`submitting, this`trace, spool
      ensures Valid() && ForeignSteps(old(trace), trace)
      ensures ok ==> job in submitting && HasJob(spool.jobs, job) && job !in old(spool.jobs)
      ensures spool.reliable && durationMs > 0 && job !in old(spool.jobs) && Plannable(durationMs, counter) ==> ok
    {
      if durationMs <= 0 || job in spool.jobs {
        return false;
      }
      var planned := PlanWindows(durationMs, counter);
      if planned.Rejected? {
        StuckIsNotPlannable(durationMs, counter);
        return false;
      }
      LadderCoversRecording(planned.value, durationMs, counter);
      ok := WriteJob(job, Assign(FirstIds(|planned.value|), planned.value), durationMs, provenance);
    }

    method WriteJob(job: JobId, plan: Plan, durationMs: int, provenance: Provenance) returns (ok: bool)
      requires Valid() && job !in spool.jobs && durationMs > 0 && CoversRecording(plan, durationMs)
      modifies this`submitting, this`trace, spool
      ensures Valid() && ForeignSteps(old(trace), trace)
      ensures ok ==> job in submitting && HasJob(spool.jobs, job)
      ensures spool.reliable ==> ok
    {
      hide Run, After, Next, Allowed, CoversRecording, ForeignSteps, QuietSteps, CreationSteps;
      NotSubmitting(trace, job);
      ghost var count;
      ok, count := spool.CreateJob(job, plan, durationMs, provenance);
      CreationIsForeign(trace, job, plan, durationMs, provenance, count, ok);
      CreationRun(trace, job, plan, durationMs, provenance, count, ok);
      trace := trace + CreationSteps(job, plan, durationMs, provenance, count, ok);
      submitting := if ok then submitting + {job} else submitting;
    }

    /** The second half of submit, under the lock: queue the job with a new cancel event. */
    method EnqueueJob(job: JobId)
      requires Valid() && job in submitting && HasJob(spool.jobs, job)
      modifies this`queue, this`cancelEvents, this`submitting, this`trace
      ensures Valid() && ForeignSteps(old(trace), trace)
      ensures queue == old(queue) + [job] && cancelEvents == old(cancelEvents)[job := false]
    {
      OneMore(trace, Enqueue(job));
      queue, cancelEvents, submitting := queue + [job], cancelEvents[job := false], submitting - {job};
      trace := trace + [Enqueue(job)];
    }

    /** Any number of the calls other threads still have to make, one lock region each. */
    method OtherThreads()
      requires Valid()
      modifies this`calls, this`queue, this`cancelEvents, this`submitting, this`cancelled, this`trace, spool
      ensures Valid() && ForeignSteps(old(trace), trace)
      ensures |calls| + |queue| <= |old(calls)| + |old(queue)|
      ensures old(queue) <= queue
    {
      var more: bool := *;
      while more && calls != []
        invariant Valid() && ForeignSteps(old(trace), trace)
        invariant |calls| + |queue| <= |old(calls)| + |old(queue)|
        invariant old(queue) <= queue
        decreases |calls|
      {
        var call := calls[0];
        calls := calls[1..];
        match call {
          case CallCancel(job) => var _ := CancelJob(job);
          case CallResume(job) => var _ := ResumeJob(job);
          case CallCreate(job, durationMs, provenance) => var _ := CreateJob(job, durationMs, provenance);
          case CallEnqueue(job) =>
            if job in submitting && job in spool.jobs && spool.jobs[job].record.Some? {
              EnqueueJob(job);
            }
        }
        more := *;
      }
    }

    // ----- the scheduler thread -----

    /** `_state` without a plan. A job that has ended cannot move. */
    method SetJobState(job: JobId, state: JobState, error: Option<ErrorCode>) returns (ok: bool)
      requires Valid()
      requires state == COMPLETED ==> && active == Some(job) && job in spool.jobs && spool.jobs[job].transcribed
                                      && job in cancelEvents && !cancelEvents[job]
      modifies this`trace, spool
      ensures Valid()
      ensures trace == old(trace) || trace == old(trace) + [SetState(job, state, error)]
      ensures ok ==> trace != old(trace) && HasJob(spool.jobs, job) && HasJob(old(spool.jobs), job)
                     && spool.jobs[job]
                       == old(spool.jobs)[job].(record := Some(NextSnapshot(old(spool.jobs)[job].record.value, state,
                               error)))
      ensures spool.reliable && HasJob(old(spool.jobs), job) && !old(spool.jobs)[job].Finished() ==> ok
      ensures HasJob(old(spool.jobs), job) && old(spool.jobs)[job].Finished() ==>
                !ok && trace == old(trace) && spool.jobs == old(spool.jobs)
      ensures old(Steady(job)) && !state.Terminal() ==> Steady(job)
    {
      hide Run, After, Next, Allowed, Scheduled, Intact;
      var record := spool.LoadJob(job);
      if record.Failure? || record.value.state.Terminal() {
        return false;
      }
      OnGoodDisk(trace, job);
      SetStateNext(After(trace), job, state, error);
      ghost var count;
      ok, count := spool.SaveJob(job, NextSnapshot(record.value, state, error), None);
      if count > 0 {
        OneMore(trace, SetState(job, state, error));
        trace := trace + [SetState(job, state, error)];
      }
    }

    /** `_state(PREPARING, windows=...)`: the new plan, then the snapshot. */
    method ReplanJob(job: JobId, change: Replacement) returns (ok: bool)
      requires Valid() && active == Some(job) && HasJob(spool.jobs, job)
      requires ReplanPossible(spool.jobs[job], change)
      modifies this`trace, spool
      ensures Valid() && old(trace) <= trace
      ensures ok ==> trace == old(trace) + ReplanSteps(job, change, 2)
      ensures ok ==> && HasJob(spool.jobs, job)
                     && SameWork(AfterReplan(old(spool.jobs)[job], PlanAfter(old(spool.jobs)[job], change)),
                                 spool.jobs[job])
      ensures spool.reliable && !old(spool.jobs)[job].Finished() ==> ok
      ensures old(spool.jobs)[job].Finished() ==> !ok && spool.jobs == old(spool.jobs)
      ensures ok ==> spool.jobs[job].InState(PREPARING)
    {
      hide Run, After, Next, Allowed, Scheduled, RetryAllowed, Intact, PlanKeepsAttempts, Replanned;
      var record := spool.LoadJob(job);
      if record.Failure? || record.value.state.Terminal() {
        return false;
      }
      OnGoodDisk(trace, job);
      PlanAfterKeeps(spool.jobs[job], change);
      var plan := PlanAfter(spool.jobs[job], change);
      ghost var count;
      ok, count := spool.SaveJob(job, NextSnapshot(record.value, PREPARING, None), Some(plan));
      ReplanRun(trace, job, change, count);
      trace := trace + ReplanSteps(job, change, count);
    }

    /** save_window_result on the active job. */
    method SaveAttempt(job: JobId, r: WindowResult) returns (ok: bool)
      requires Running(job) && r.Terminal()
      modifies this`trace, spool
      ensures old(trace) <= trace
      ensures Valid()
      ensures ok ==> Running(job) && Remaining(spool.jobs[job]) < old(Remaining(spool.jobs[job]))
                     && spool.jobs[job] == WithAttempt(old(spool.jobs)[job], r)
      ensures spool.reliable && MayRecord(old(spool.jobs)[job], r) ==> ok
    {
      hide Run, After, Next, Allowed, Scheduled, Remaining, Intact;
      ReachableGood(trace);
      ghost var f := spool.jobs[job];
      ghost var count;
      ok, count := spool.SaveWindowResult(job, r);
      if count > 0 {
        AttemptRun(trace, job, r, count);
        AttemptProgress(f, r);
        trace := trace + AttemptSteps(job, r, count);
        ReachableGood(trace);
      }
    }

    /** The scheduler thread is working on `job`. */
    ghost predicate Running(job: JobId) reads this, spool {
      Valid() && active == Some(job) && HasJob(spool.jobs, job) && job in cancelEvents && Scheduled(spool.jobs[job])
    }

    /** Other threads run; the job's own work stays. */
    method Yield(job: JobId)
      requires Running(job)
      modifies this`calls, this`queue, this`cancelEvents, this`submitting, this`cancelled, this`trace, spool
      ensures old(trace) <= trace
      ensures Running(job) && SameWork(old(spool.jobs)[job], spool.jobs[job])
              && SameDerived(old(spool.jobs)[job], spool.jobs[job])
      ensures |calls| + |queue| <= |old(calls)| + |old(queue)|
      ensures old(queue) <= queue
      ensures old(cancelEvents[job] && job !in submitting) ==> cancelEvents[job] && job !in submitting
      ensures old(Steady(job)) ==> Steady(job)
      ensures spool.jobs[job].InState(old(spool.jobs[job].record.value.state)) || WasCancelled(job)
    {
      hide Run, After, Scheduled, Good;
      ghost var before := trace;
      ghost var state := spool.jobs[job].record.value.state;
      ReachableGood(before);
      OtherThreads();
      ForeignKeepsState(before, trace, job, state);
      QuietKeepsWork(before, trace);
      if Raised(After(before), job) {
        QuietKeepsRaised(before, trace, job);
      }
      ReachableGood(trace);
      HeldGood(After(trace), job);
    }

    method RunningState(job: JobId, state: JobState, error: Option<ErrorCode>) returns (ok: bool)
      requires Running(job) && state != COMPLETED
      modifies this`trace, spool
      ensures old(trace) <= trace
      ensures Running(job) && SameWork(old(spool.jobs)[job], spool.jobs[job])
              && SameDerived(old(spool.jobs)[job], spool.jobs[job])
      ensures ok ==> spool.jobs[job]
                     == old(spool.jobs)[job].(record := Some(NextSnapshot(old(spool.jobs)[job].record.value, state,
                             error)))
      ensures ok ==> trace == old(trace) + [SetState(job, state, error)]
      ensures spool.reliable && old(Steady(job)) ==> ok || spool.jobs[job].InState(CANCELLED)
      ensures old(Steady(job)) && !state.Terminal() ==> Steady(job)
    {
      hide Run, After, Scheduled, Good;
      ok := SetJobState(job, state, error);
      QuietKeepsWork(old(trace), trace);
      ReachableGood(trace);
      HeldGood(After(trace), job);
    }

    /** What becomes of a window whose attempt failed: new windows, or the job's failure. */
    method ChooseReplacement(f: Files, id: WindowId) returns (choice: Choice)
      requires id in f.plan && id in f.checkpoints
      modifies this`childRunning
      ensures choice.Substitute? ==> RetryAllowed(f, id, choice.windows)
      ensures choice.Fail? <==> !Replaceable(f, id, counter)
      ensures choice.Fail? ==> choice.error == FailureOf(f, id)
      ensures dependable ==> !choice.Raise?
      ensures var r := f.checkpoints[id];
              if r.Crash() then
                if |CrashIds(f)| > 1 then choice == Fail(r.error) && !childRunning
                else choice == (if childRunning then Substitute([f.plan[id]]) else Raise)
              else if r.error.Some? && r.error.value.Retryable() then
                !choice.Raise? && childRunning == (old(childRunning) && r.error.value !in {Oom, OutOfMemory})
              else
                choice == Fail(if r.error.Some? then r.error else Some(WindowFailed))
                && childRunning == old(childRunning)
    {
      var window, result := f.plan[id], f.checkpoints[id];
      if result.Crash() {
        if |CrashIds(f)| > 1 {
          childRunning := false;
          return Fail(result.error);
        }
        var starts: bool := *;
        childRunning := dependable || starts;
        return if childRunning then Substitute([window]) else Raise;
      }
      if result.error.Some? && result.error.value.Retryable() {
        if result.error.value in {Oom, OutOfMemory} {
          childRunning := false;
        }
        var retry := PlanRetryWindows(window, counter);
        if retry.Rejected? {
          return Fail(Some(Other("retry exhausted")));
        }
        return Substitute(retry.value);
      }
      return Fail(if result.error.Some? then result.error else Some(WindowFailed));
    }

    /** A window that may not be replaced ends the job with its error. */
    method FailFor(job: JobId, id: WindowId, error: Option<ErrorCode>) returns (ok: bool)
      requires Running(job) && Hopeless(spool.jobs[job], id, counter) && error == FailureOf(spool.jobs[job], id)
      modifies this`trace, spool
      ensures old(trace) <= trace
      ensures Valid()
      ensures ok ==> EndedRightly(job) && spool.jobs[job].InState(FAILED)
      ensures spool.reliable && old(Steady(job)) ==> ok || WasCancelled(job)
    {
      hide Run, After, Scheduled, Replaceable, FailureOf;
      ghost var f := spool.jobs[job];
      ok := RunningState(job, FAILED, error);
      FailureStays(f, spool.jobs[job], id, counter);
      assert ok ==> FailedFor(spool.jobs[job], id, counter);
    }

    /** The pending window's attempt failed: plan its replacement, or end the job. */
    method RetryWindow(job: JobId, id: WindowId) returns (turn: Turn)
      requires Running(job) && id in spool.jobs[job].plan && id in spool.jobs[job].checkpoints
      requires spool.jobs[job].checkpoints[id].state.Failed?
      modifies this`calls, this`queue, this`cancelEvents, this`submitting, this`cancelled, this`trace,
        this`childRunning, spool
      ensures old(trace) <= trace
      ensures Valid() && |calls| + |queue| <= |old(calls)| + |old(queue)| && !turn.AllWindowsDone?
      ensures old(queue) <= queue
      ensures turn.Again? ==> Running(job) && Remaining(spool.jobs[job]) < old(Remaining(spool.jobs[job]))
      ensures turn == Ended(true) ==>
                EndedRightly(job) && spool.jobs[job].InState(FAILED) && Hopeless(old(spool.jobs)[job], id, counter)
      ensures turn.Again? ==> && !Hopeless(old(spool.jobs)[job], id, counter)
                              && exists newIds :: ReplacedBy(old(spool.jobs)[job], spool.jobs[job], id, newIds)
      ensures Reliable() && old(Steady(job)) && !turn.Ended? ==> Steady(job)
      ensures Reliable() && old(Steady(job)) && turn == Ended(false) ==> WasCancelled(job)
    {
      hide Run, After, Scheduled, Remaining, RetryAllowed, Replaceable, FailureOf, ReplacedBy, OpenOrCancelled;
      var f := spool.jobs[job];
      var choice := ChooseReplacement(spool.jobs[job], id);
      match choice
      case Raise => turn := Ended(false);
      case Fail(error) =>
        var ok := FailFor(job, id, error);
        turn := Ended(ok);
      case Substitute(windows) =>
        Yield(job);
        ghost var g := spool.jobs[job];
        SameWorkRetries(f, g, id, windows);
        var ok, change := ReplaceWindow(job, id, windows);
        turn := if ok then Again else Ended(false);
        if ok {
          ReplacementIs(f, g, spool.jobs[job], change);
        }
    }

    method ReplaceWindow(job: JobId, id: WindowId, windows: seq<WindowSpec>)
      returns (ok: bool, ghost change: Replacement)
      requires Running(job) && id in spool.jobs[job].plan && id in spool.jobs[job].checkpoints
      requires spool.jobs[job].checkpoints[id].state.Failed? && RetryAllowed(spool.jobs[job], id, windows)
      modifies this`trace, spool
      ensures old(trace) <= trace
      ensures Valid() && change.id == id && change.windows == windows && ReplanPossible(old(spool.jobs)[job], change)
      ensures ok ==> Running(job) && Remaining(spool.jobs[job]) < old(Remaining(spool.jobs[job]))
                     && spool.jobs[job].plan == PlanAfter(old(spool.jobs)[job], change)
                     && spool.jobs[job].checkpoints == old(spool.jobs)[job].checkpoints
      ensures spool.reliable && old(Steady(job)) ==> ok || WasCancelled(job)
      ensures ok ==> Steady(job)
    {
      var f := spool.jobs[job];
      var newIds := FreshIds(|windows|, f.ever);
      var chosen := Replacement(id, newIds, windows);
      change := chosen;
      ok := ReplanJob(job, chosen);
      if ok {
        ReachableGood(trace);
        ReplanProgress(f, spool.jobs[job], change);
      }
    }

    /** save_speaker_state, save_merged_segments or append_event on the active job. */
    method SaveDerived(job: JobId, write: Write) returns (ok: bool)
      requires Running(job) && write.job == job && (write.PutSpeakerState? || write.PutMerged? || write.PutEvents?)
      modifies this`trace, spool
      ensures old(trace) <= trace
      ensures Running(job) && SameWork(old(spool.jobs)[job], spool.jobs[job])
      ensures ok ==> spool.jobs[job] == Replace(old(spool.jobs)[job], write)
      ensures spool.reliable && old(spool.jobs)[job].Open() ==> ok
      ensures spool.jobs[job].record == old(spool.jobs)[job].record
    {
      hide Run, After, Scheduled;
      ghost var landed;
      ok, landed := spool.SaveDerived(write);
      if landed {
        OneMore(trace, WriteDerived(job, write));
        trace := trace + [WriteDerived(job, write)];
        ReachableGood(trace);
      }
    }

    /** Native progress reports of the child, each a state change; a state that is not native
        raises. */
    method NativeStates(job: JobId, reports: seq<JobState>) returns (ok: bool)
      requires Running(job)
      modifies this`calls, this`queue, this`cancelEvents, this`submitting, this`cancelled, this`trace, spool
      ensures old(trace) <= trace
      ensures Running(job) && SameWork(old(spool.jobs)[job], spool.jobs[job])
      ensures |calls| + |queue| <= |old(calls)| + |old(queue)|
      ensures old(queue) <= queue
      ensures old(Steady(job)) ==>
                Steady(job) && (spool.reliable && AllNative(reports) ==> ok || spool.jobs[job].InState(CANCELLED))
      ensures ok ==> AllNative(reports)
      ensures ok && reports != [] ==> spool.jobs[job].InState(reports[|reports| - 1]) || WasCancelled(job)
    {
      hide Run, After, Scheduled, OpenOrCancelled, SameDerived, Valid;
      ok := true;
      var i := 0;
      while i < |reports| && ok
        invariant i <= |reports| && (ok ==> AllNative(reports[..i]))
        invariant Running(job) && SameWork(old(spool.jobs)[job], spool.jobs[job]) && old(trace) <= trace
        invariant old(Steady(job)) ==>
                    Steady(job) && (spool.reliable && AllNative(reports) ==> ok || spool.jobs[job].InState(CANCELLED))
        invariant |calls| + |queue| <= |old(calls)| + |old(queue)|
        invariant old(queue) <= queue
        invariant ok && i > 0 ==> spool.jobs[job].InState(reports[i - 1]) || WasCancelled(job)
      {
        Yield(job);
        assert reports[..i + 1] == reports[..i] + [reports[i]];
        ok := reports[i].Native();
        if ok {
          ok := RunningState(job, reports[i], None);
        }
        i := i + 1;
      }
      if ok {
        assert reports[..|reports|] == reports;
        Yield(job);
      }
    }

    /** The child process runs, or raises while starting. */
    method EnsureChild() returns (ok: bool)
      modifies this`childRunning
      ensures ok == childRunning && (old(childRunning) || dependable ==> ok)
    {
      if !childRunning {
        var starts: bool := *;
        childRunning := dependable || starts;
      }
      ok := childRunning;
    }

    /** What a dependable child may end a request with. */
    predicate Fitting(answer: Outcome, f: Files, id: WindowId, cancelRaised: bool) {
      match answer
      case Crashed(_) => true
      case StoppedForCancel => cancelRaised
      case Answer(result, _) => result.Terminal() && result.windowId == id && ResultMatches(f, result)
      case ProtocolError => false
    }

    /** The states that the child reports during a request, and what it ends the request with. */
    method Reports() returns (reports: seq<JobState>)
      ensures dependable ==> AllNative(reports)
    {
      reports := *;
      if dependable && !AllNative(reports) {
        reports := [];
      }
    }

    method Ending(f: Files, id: WindowId, cancelRaised: bool) returns (answer: Outcome)
      ensures dependable ==> Fitting(answer, f, id, cancelRaised)
    {
      answer := *;
      if dependable && !Fitting(answer, f, id, cancelRaised) {
        answer := Crashed("");
      }
    }

    /** One inference. None: the call raised, or the job was cancelled (`stopped`). */
    method Infer(job: JobId, id: WindowId)
      returns (r: Option<WindowResult>, metadata: Option<string>, stopped: bool, ghost reported: bool,
               ghost outcome: Outcome)
      requires Running(job) && id in spool.jobs[job].plan
      modifies this`calls, this`queue, this`cancelEvents, this`submitting, this`cancelled, this`trace,
        this`childRunning, spool
      ensures old(trace) <= trace
      ensures Running(job) && SameWork(old(spool.jobs)[job], spool.jobs[job])
      ensures |calls| + |queue| <= |old(calls)| + |old(queue)|
      ensures old(queue) <= queue
      ensures r.Some? ==> r.value.Terminal() && r.value.windowId == id && r.value.window == spool.jobs[job].plan[id]
      ensures stopped ==> && r.None? && outcome.StoppedForCancel?
                          && spool.jobs[job].InState(CANCELLED) && cancelEvents[job]
      ensures r.Some? ==> reported
      ensures reported && outcome.Crashed? ==>
                r == Some(CrashResult(id, spool.jobs[job], outcome.detail)) && metadata.None?
      ensures reported && outcome.Answer? ==>
                && (r.Some? <==>
                    outcome.result.Terminal() && outcome.result.windowId == id
                      && outcome.result.window == spool.jobs[job].plan[id])
                && (r.Some? ==> r.value == outcome.result && metadata == outcome.metadata)
      ensures outcome.ProtocolError? ==> r.None?
      ensures old(Steady(job)) && r.Some? ==> Steady(job) && (dependable ==> ResultMatches(spool.jobs[job], r.value))
      ensures Reliable() && old(Steady(job)) && r.None? && !stopped ==> spool.jobs[job].InState(CANCELLED)
    {
      hide Run, After, Scheduled;
      r, metadata, stopped := None, None, false;
      var reports := Reports();
      var answered := NativeStates(job, reports);
      var answer := Ending(spool.jobs[job], id, cancelEvents[job]);
      reported, outcome := answered, answer;
      if !answered || answer.ProtocolError? {
        return;
      }
      r, metadata, stopped := Conclude(job, id, answer);
    }

    /** What follows from the end of a request. */
    method Conclude(job: JobId, id: WindowId, answer: Outcome)
      returns (r: Option<WindowResult>, metadata: Option<string>, stopped: bool)
      requires Running(job) && id in spool.jobs[job].plan
      modifies this`trace, this`childRunning, spool
      ensures old(trace) <= trace
      ensures Running(job) && SameWork(old(spool.jobs)[job], spool.jobs[job])
      ensures r.Some? ==> r.value.Terminal() && r.value.windowId == id && r.value.window == spool.jobs[job].plan[id]
      ensures stopped ==> r.None? && answer.StoppedForCancel? && spool.jobs[job].InState(CANCELLED) && cancelEvents[job]
      ensures answer.Crashed? ==> r == Some(CrashResult(id, spool.jobs[job], answer.detail)) && metadata.None?
      ensures answer.Answer? ==>
                && (r.Some? <==>
                    answer.result.Terminal() && answer.result.windowId == id
                      && answer.result.window == spool.jobs[job].plan[id])
                && (r.Some? ==> r.value == answer.result && metadata == answer.metadata)
      ensures answer.ProtocolError? ==> r.None?
      ensures r.Some? ==> spool.jobs == old(spool.jobs)
      ensures old(Steady(job)) && Fitting(answer, old(spool.jobs)[job], id, cancelEvents[job]) ==>
                if r.Some? then ResultMatches(spool.jobs[job], r.value)
                else spool.reliable && !stopped ==> WasCancelled(job)
    {
      hide Run, After, Scheduled;
      r, metadata, stopped := None, None, false;
      var window := spool.jobs[job].plan[id];
      match answer
      case StoppedForCancel =>
        if cancelEvents[job] {
          stopped := RunningState(job, CANCELLED, None);
          childRunning := *;
        }
      case Crashed(detail) =>
        r := Some(CrashResult(id, spool.jobs[job], detail));
      case Answer(result, details) =>
        if result.Terminal() && result.windowId == id && result.window == window {
          r, metadata := Some(result), details;
        }
      case ProtocolError =>
    }

    /** A pending window without a checkpoint: the budget check, then one inference. */
    method AttemptWindow(job: JobId, id: WindowId) returns (turn: Turn)
      requires Running(job) && id in spool.jobs[job].plan
      modifies this`calls, this`queue, this`cancelEvents, this`submitting, this`cancelled, this`trace,
        this`childRunning, spool
      ensures old(trace) <= trace
      ensures Valid() && |calls| + |queue| <= |old(calls)| + |old(queue)| && !turn.AllWindowsDone?
      ensures old(queue) <= queue
      ensures turn.Again? ==> Running(job) && Remaining(spool.jobs[job]) < old(Remaining(spool.jobs[job]))
      ensures turn == Ended(true) ==> EndedRightly(job) && spool.jobs[job].InState(CANCELLED)
      ensures turn.Again? ==> AttemptedAt(old(spool.jobs)[job], spool.jobs[job], id, counter)
      ensures !Fits(counter(old(spool.jobs)[job].plan[id].startMs, old(spool.jobs)[job].plan[id].endMs)) ==>
                && childRunning == old(childRunning)
                && (turn.Again? ==> spool.jobs[job].checkpoints[id] == BudgetResult(id, old(spool.jobs)[job]))
      ensures Reliable() && old(Steady(job)) && id !in old(spool.jobs)[job].checkpoints && !turn.Ended? ==> Steady(job)
      ensures Reliable() && old(Steady(job)) && id !in old(spool.jobs)[job].checkpoints && turn == Ended(false) ==>
                WasCancelled(job)
    {
      hide Run, After, Scheduled;
      var window := spool.jobs[job].plan[id];
      if !Fits(counter(window.startMs, window.endMs)) {
        turn := RecordAttempt(job, BudgetResult(id, spool.jobs[job]), None);
      } else {
        turn := InferWindow(job, id);
      }
    }

    /** A window within budget: one inference, and its answer is the attempt. */
    method InferWindow(job: JobId, id: WindowId) returns (turn: Turn)
      requires Running(job) && id in spool.jobs[job].plan
      requires Fits(counter(spool.jobs[job].plan[id].startMs, spool.jobs[job].plan[id].endMs))
      modifies this`calls, this`queue, this`cancelEvents, this`submitting, this`cancelled, this`trace,
        this`childRunning, spool
      ensures old(trace) <= trace
      ensures Valid() && |calls| + |queue| <= |old(calls)| + |old(queue)| && !turn.AllWindowsDone?
      ensures old(queue) <= queue
      ensures turn.Again? ==> Running(job) && Remaining(spool.jobs[job]) < old(Remaining(spool.jobs[job]))
      ensures turn == Ended(true) ==> EndedRightly(job) && spool.jobs[job].InState(CANCELLED)
      ensures turn.Again? ==> AttemptedAt(old(spool.jobs)[job], spool.jobs[job], id, counter)
      ensures Reliable() && old(Steady(job)) && id !in old(spool.jobs)[job].checkpoints && !turn.Ended? ==> Steady(job)
      ensures Reliable() && old(Steady(job)) && id !in old(spool.jobs)[job].checkpoints && turn == Ended(false) ==>
                WasCancelled(job)
    {
      hide Run, After, Scheduled, AttemptedAt, EndedRightly;
      ghost var f := spool.jobs[job];
      var ready := EnsureChild();
      if !ready {
        return Ended(false);
      }
      var result, metadata, stopped, _, _ := Infer(job, id);
      if result.None? {
        EndedCancelled(job);
        return Ended(stopped);
      }
      ghost var g := spool.jobs[job];
      turn := RecordAttempt(job, result.value, metadata);
      if turn.Again? {
        AttemptIs(f, g, spool.jobs[job], id, result.value, counter);
      }
    }

    lemma EndedCancelled(job: JobId)
      requires job in spool.jobs && job in cancelEvents
      ensures spool.jobs[job].InState(CANCELLED) && cancelEvents[job] ==> EndedRightly(job)
    {
    }

    /** The attempt is saved, and then what the child reported about it. */
    method RecordAttempt(job: JobId, result: WindowResult, metadata: Option<string>) returns (turn: Turn)
      requires Running(job) && result.Terminal()
      modifies this`trace, spool
      ensures old(trace) <= trace
      ensures Valid() && (turn.Again? || turn == Ended(false))
      ensures turn.Again? ==> Running(job) && Remaining(spool.jobs[job]) < old(Remaining(spool.jobs[job]))
      ensures turn.Again? ==> && spool.jobs[job].plan == old(spool.jobs)[job].plan
                              && spool.jobs[job].checkpoints
                                == old(spool.jobs)[job].checkpoints[result.windowId := result]
                              && spool.jobs[job].events
                                == old(spool.jobs)[job].events + (if metadata.Some? then metadata.value else "")
      ensures spool.reliable && MayRecord(old(spool.jobs)[job], result) ==> turn.Again?
      ensures turn.Again? ==> spool.jobs[job].record == old(spool.jobs)[job].record
    {
      var ok := SaveAttempt(job, result);
      if ok && metadata.Some? {
        ok := SaveDerived(job, PutEvents(job, spool.jobs[job].events + metadata.value));
      }
      turn := if ok then Again else Ended(false);
    }

    /** One half of _merge: announce the phase and save what it derived. */
    method Derive(job: JobId, phase: JobState, write: Write) returns (ok: bool)
      requires Running(job) && phase != COMPLETED && write.job == job && (write.PutSpeakerState? || write.PutMerged?)
      modifies this`calls, this`queue, this`cancelEvents, this`submitting, this`cancelled, this`trace, spool
      ensures old(trace) <= trace
      ensures Running(job) && SameWork(old(spool.jobs)[job], spool.jobs[job])
      ensures ok ==> SameDerived(Replace(old(spool.jobs)[job], write), spool.jobs[job])
      ensures ok ==> spool.jobs[job].InState(phase) || WasCancelled(job)
      ensures |calls| + |queue| <= |old(calls)| + |old(queue)|
      ensures old(queue) <= queue
      ensures old(Steady(job)) && !phase.Terminal() ==>
                Steady(job) && (spool.reliable ==> ok || spool.jobs[job].InState(CANCELLED))
    {
      hide Run, After, Scheduled;
      ok := RunningState(job, phase, None);
      if ok {
        Yield(job);
        ok := SaveDerived(job, write);
      }
    }

    /** The speaker state and then the merged segments are saved. */
    method DeriveBoth(job: JobId, speakers: string, merged: string) returns (ok: bool)
      requires Running(job)
      modifies this`calls, this`queue, this`cancelEvents, this`submitting, this`cancelled, this`trace, spool
      ensures old(trace) <= trace
      ensures Running(job) && SameWork(old(spool.jobs)[job], spool.jobs[job])
      ensures ok ==> && spool.jobs[job].speakerState == speakers && spool.jobs[job].merged == merged
                     && spool.jobs[job].transcribed == spool.jobs[job].AllDone()
      ensures |calls| + |queue| <= |old(calls)| + |old(queue)|
      ensures old(queue) <= queue
      ensures old(Steady(job)) ==> Steady(job) && (spool.reliable ==> ok || spool.jobs[job].InState(CANCELLED))
    {
      hide Run, After, Scheduled, Replace, SameDerived, SameWork, OpenOrCancelled, Valid, Steady;
      ghost var f := spool.jobs[job];
      ok := Derive(job, REMAPPING, PutSpeakerState(job, speakers));
      if ok {
        ghost var g := spool.jobs[job];
        ok := Derive(job, MERGING, PutMerged(job, merged));
        ghost var h := spool.jobs[job];
        SameWorkChain(f, g, h);
        if ok {
          Yield(job);
          SameWorkChain(f, h, spool.jobs[job]);
          MergedFiles(job, f, g, h, spool.jobs[job], speakers, merged);
        }
      }
    }

    /** _merge: speaker state, then merged segments, both from the stored results. */
    method MergeJob(job: JobId) returns (ok: bool)
      requires Running(job)
      modifies this`calls, this`queue, this`cancelEvents, this`submitting, this`cancelled, this`trace, spool
      ensures old(trace) <= trace
      ensures Running(job) && SameWork(old(spool.jobs)[job], spool.jobs[job])
      ensures ok ==>
                spool.jobs[job].transcribed == spool.jobs[job].AllDone()
                  && IsMerged(old(spool.jobs)[job], spool.jobs[job])
      ensures |calls| + |queue| <= |old(calls)| + |old(queue)|
      ensures old(queue) <= queue
      ensures old(Steady(job)) ==> Steady(job)
      ensures spool.reliable && old(Steady(job)) && !ok ==>
                spool.jobs[job].InState(CANCELLED)
                || (spool.jobs == old(spool.jobs) && MergeRefused(spool.jobs[job]))
    {
      hide Run, After, Scheduled, SameWork, OpenOrCancelled;
      var derived := merging(spool.jobs[job].speakerState, spool.jobs[job].checkpoints);
      if derived.None? {
        SameWorkItself(spool.jobs[job]);
        return false;
      }
      var (speakers, merged) := derived.value;
      ok := DeriveBoth(job, speakers, merged);
    }

    predicate MergeRefused(f: Files) { merging(f.speakerState, f.checkpoints).None? }

    /** Every window is done, and merging them raises. */
    ghost predicate MergeStuck(job: JobId) reads this, spool {
      HasJob(spool.jobs, job) && spool.jobs[job].AllDone() && MergeRefused(spool.jobs[job])
    }

    /** `g` holds what merging makes of `f`. */
    predicate IsMerged(f: Files, g: Files) {
      var derived := merging(f.speakerState, f.checkpoints);
      derived == Some((g.speakerState, g.merged))
    }

    /** One turn of the loop in _run. An event that is raised when the turn begins ends the job,
        unless the job's own submit is about to replace it. */
    method WindowTurn(job: JobId) returns (turn: Turn)
      requires Running(job)
      modifies this`calls, this`queue, this`cancelEvents, this`submitting, this`cancelled, this`trace,
        this`childRunning, spool
      ensures old(trace) <= trace
      ensures Valid() && |calls| + |queue| <= |old(calls)| + |old(queue)|
      ensures old(queue) <= queue
      ensures turn.Again? ==> Running(job) && Remaining(spool.jobs[job]) < old(Remaining(spool.jobs[job]))
      ensures turn.Again? ==> exists id :: TurnAt(old(spool.jobs)[job], spool.jobs[job], id, counter)
      ensures turn == Ended(true) ==> EndedRightly(job) && !spool.jobs[job].InState(COMPLETED)
      ensures turn.AllWindowsDone? ==> Running(job) && spool.jobs[job].AllDone()
      ensures old(job in cancelEvents && cancelEvents[job] && job !in submitting) ==>
                turn.Ended? && (turn.ok ==> spool.jobs[job].InState(CANCELLED))
      ensures Reliable() && old(Steady(job)) && !turn.Ended? ==> Steady(job)
      ensures Reliable() && old(Steady(job)) && turn == Ended(false) ==> WasCancelled(job)
    {
      hide Run, After, Scheduled, Remaining, EndedRightly, TurnAt;
      ghost var f := spool.jobs[job];
      Yield(job);
      ghost var g := spool.jobs[job];
      SameRemaining(f, g);
      turn := CheckedTurn(job);
      if turn.Again? {
        ghost var id :| TurnAt(g, spool.jobs[job], id, counter);
        SameWorkTurn(f, g, spool.jobs[job], id, counter);
      }
    }

    /** The rest of the turn, from its check of the cancel event on. */
    method CheckedTurn(job: JobId) returns (turn: Turn)
      requires Running(job)
      modifies this`calls, this`queue, this`cancelEvents, this`submitting, this`cancelled, this`trace,
        this`childRunning, spool
      ensures old(trace) <= trace
      ensures Valid() && |calls| + |queue| <= |old(calls)| + |old(queue)|
      ensures old(queue) <= queue
      ensures turn.Again? ==> Running(job) && Remaining(spool.jobs[job]) < old(Remaining(spool.jobs[job]))
      ensures turn.Again? ==> exists id :: TurnAt(old(spool.jobs)[job], spool.jobs[job], id, counter)
      ensures turn == Ended(true) ==> EndedRightly(job) && !spool.jobs[job].InState(COMPLETED)
      ensures turn.AllWindowsDone? ==> Running(job) && spool.jobs[job].AllDone()
      ensures old(cancelEvents)[job] ==> turn.Ended? && (turn.ok ==> spool.jobs[job].InState(CANCELLED))
      ensures !old(cancelEvents)[job] && (exists id :: EarliestHopeless(old(spool.jobs)[job], id, counter)) ==>
                turn.Ended? && (turn.ok ==> spool.jobs[job].InState(FAILED))
      ensures Reliable() && old(Steady(job)) && !turn.Ended? ==> Steady(job)
      ensures Reliable() && old(Steady(job)) && turn == Ended(false) ==> WasCancelled(job)
    {
      hide Run, After, Scheduled, Remaining, Hopeless, Replaceable, Earliest, TurnAt;
      if cancelEvents[job] {
        var ok := RunningState(job, CANCELLED, None);
        return Ended(ok);
      }
      turn := UncancelledTurn(job);
    }

    /** The rest of the turn where no event is raised: the earliest pending window, if there is one. */
    method UncancelledTurn(job: JobId) returns (turn: Turn)
      requires Running(job)
      modifies this`calls, this`queue, this`cancelEvents, this`submitting, this`cancelled, this`trace,
        this`childRunning, spool
      ensures old(trace) <= trace
      ensures Valid() && |calls| + |queue| <= |old(calls)| + |old(queue)|
      ensures old(queue) <= queue
      ensures turn.Again? ==> Running(job) && Remaining(spool.jobs[job]) < old(Remaining(spool.jobs[job]))
      ensures turn.Again? ==> exists id :: TurnAt(old(spool.jobs)[job], spool.jobs[job], id, counter)
      ensures turn == Ended(true) ==> EndedRightly(job) && !spool.jobs[job].InState(COMPLETED)
      ensures turn.AllWindowsDone? ==> Running(job) && spool.jobs[job].AllDone()
      ensures (exists id :: EarliestHopeless(old(spool.jobs)[job], id, counter)) ==>
                turn.Ended? && (turn.ok ==> spool.jobs[job].InState(FAILED))
      ensures Reliable() && old(Steady(job)) && !turn.Ended? ==> Steady(job)
      ensures Reliable() && old(Steady(job)) && turn == Ended(false) ==> WasCancelled(job)
    {
      hide Run, After, Scheduled, Remaining, Hopeless, Replaceable, Intact, OpenOrCancelled, Steady, TurnAt;
      OnGoodDisk(trace, job);
      var attempts := spool.LoadWindowResults(job);
      if attempts.Failure? {
        return Ended(false);
      }
      var pending := EarliestPending(spool.jobs[job]);
      if pending.None? {
        return AllWindowsDone;
      }
      turn := ServeWindow(job, pending.value);
    }

    /** A pending window either has a failed attempt behind it or is tried now. */
    method ServeWindow(job: JobId, id: WindowId) returns (turn: Turn)
      requires Running(job) && id in spool.jobs[job].plan && !spool.jobs[job].DoneAt(id)
      modifies this`calls, this`queue, this`cancelEvents, this`submitting, this`cancelled, this`trace,
        this`childRunning, spool
      ensures old(trace) <= trace
      ensures Valid() && |calls| + |queue| <= |old(calls)| + |old(queue)| && !turn.AllWindowsDone?
      ensures old(queue) <= queue
      ensures turn.Again? ==> Running(job) && Remaining(spool.jobs[job]) < old(Remaining(spool.jobs[job]))
      ensures turn.Again? && Earliest(old(spool.jobs)[job], id) ==>
                TurnAt(old(spool.jobs)[job], spool.jobs[job], id, counter)
      ensures turn == Ended(true) ==>
                EndedRightly(job)
                && spool.jobs[job].InState(if Hopeless(old(spool.jobs)[job], id, counter) then FAILED else CANCELLED)
      ensures Hopeless(old(spool.jobs)[job], id, counter) ==> turn.Ended?
      ensures Reliable() && old(Steady(job)) && !turn.Ended? ==> Steady(job)
      ensures Reliable() && old(Steady(job)) && turn == Ended(false) ==> WasCancelled(job)
    {
      hide Run, After, Remaining, Replaceable, ReplacedBy, AttemptedAt;
      if id in spool.jobs[job].checkpoints {
        assert spool.jobs[job].checkpoints[id].Terminal();
        turn := RetryWindow(job, id);
      } else {
        turn := AttemptWindow(job, id);
      }
    }

    /** The loop of _run: turn after turn until the job has ended or every planned window is
        done. The measure is the attempt bound: it ends whatever the child answers. */
    method RunWindows(job: JobId) returns (turn: Turn)
      requires Running(job)
      modifies this`calls, this`queue, this`cancelEvents, this`submitting, this`cancelled, this`trace,
        this`childRunning, spool
      ensures old(trace) <= trace
      ensures Valid() && |calls| + |queue| <= |old(calls)| + |old(queue)| && !turn.Again?
      ensures old(queue) <= queue
      ensures turn == Ended(true) ==> EndedRightly(job) && !spool.jobs[job].InState(COMPLETED)
      ensures turn.AllWindowsDone? ==> Running(job) && spool.jobs[job].AllDone()
      ensures old(job in cancelEvents && cancelEvents[job] && job !in submitting) ==>
                turn.Ended? && (turn.ok ==> spool.jobs[job].InState(CANCELLED))
      ensures Reliable() && old(Steady(job)) && turn.AllWindowsDone? ==> Steady(job)
      ensures Reliable() && old(Steady(job)) && turn == Ended(false) ==> WasCancelled(job)
    {
      hide Run, After, Scheduled;
      ghost var steady := Reliable() && Steady(job);
      ghost var cancelledBefore := cancelEvents[job] && job !in submitting;
      turn := Again;
      while turn.Again?
        invariant Valid() && |calls| + |queue| <= |old(calls)| + |old(queue)| && old(trace) <= trace
        invariant old(queue) <= queue
        invariant turn.Again? || turn.AllWindowsDone? ==> Running(job)
        invariant turn == Ended(true) ==> EndedRightly(job) && !spool.jobs[job].InState(COMPLETED)
        invariant turn.AllWindowsDone? ==> spool.jobs[job].AllDone()
        invariant steady && !turn.Ended? ==> Steady(job)
        invariant steady && turn == Ended(false) ==> WasCancelled(job)
        invariant cancelledBefore && !turn.Ended? ==> turn.Again? && cancelEvents[job] && job !in submitting
        invariant cancelledBefore && turn == Ended(true) ==> spool.jobs[job].InState(CANCELLED)
        decreases turn.Again?, if turn.Again? then Remaining(spool.jobs[job]) else 0
      {
        RemainingBounded(spool.jobs[job]);
        turn := WindowTurn(job);
      }
    }

    /** _run: window by window until every planned window is done, then merge and end. Where disk
        and child behave it raises only for a job that another thread ended as cancelled, or
        when merging raises. */
    method RunJob(job: JobId) returns (ok: bool)
      requires Running(job)
      modifies this`calls, this`queue, this`cancelEvents, this`submitting, this`cancelled, this`trace,
        this`childRunning, spool
      ensures old(trace) <= trace
      ensures Valid() && |calls| + |queue| <= |old(calls)| + |old(queue)|
      ensures old(queue) <= queue
      ensures ok ==> EndedRightly(job)
      ensures ok ==> |old(trace)| < |trace| && trace[|old(trace)|] == SetState(job, PREPARING, None)
      ensures ok && old(job in cancelEvents && cancelEvents[job] && job !in submitting) ==>
                spool.jobs[job].InState(CANCELLED)
      ensures Reliable() && old(Steady(job)) && !ok ==> WasCancelled(job) || MergeStuck(job)
    {
      hide Run, After, Scheduled, Remaining, OpenOrCancelled;
      ok := RunningState(job, PREPARING, None);
      if !ok {
        return;
      }
      ghost var announced := trace;
      var turn := RunWindows(job);
      if turn.Ended? {
        return turn.ok;
      }
      ok := FinishJob(job);
    }

    /** The end of _run: merge, then COMPLETED unless the cancel event was raised. */
    method FinishJob(job: JobId) returns (ok: bool)
      requires Running(job) && spool.jobs[job].AllDone()
      modifies this`calls, this`queue, this`cancelEvents, this`submitting, this`cancelled, this`trace, spool
      ensures old(trace) <= trace
      ensures Valid() && |calls| + |queue| <= |old(calls)| + |old(queue)|
      ensures old(queue) <= queue
      ensures ok ==> job in spool.jobs && spool.jobs[job].record.Some?
                     && job in cancelEvents
                       && spool.jobs[job].record.value.state == (if cancelEvents[job] then CANCELLED else COMPLETED)
                     && spool.jobs[job].transcribed && IsMerged(old(spool.jobs)[job], spool.jobs[job])
      ensures ok ==> EndedRightly(job)
      ensures spool.reliable && old(Steady(job)) && !ok ==> WasCancelled(job) || MergeStuck(job)
    {
      hide Run, After, Scheduled;
      ok := MergeJob(job);
      if ok {
        var final := if cancelEvents[job] then CANCELLED else COMPLETED;
        ok := SetJobState(job, final, None);
      }
    }

    /** run_pending: drain the queue. A job whose run raises is FAILED if that can be recorded;
        where disk and child behave, every job that waited has ended. */
    method RunPending()
      requires Valid() && popped.None? && active.None?
      modifies this, spool
      ensures old(trace) <= trace
      ensures Valid() && queue == [] && active.None?
      ensures Reliable() ==>
                forall j :: j in old(queue) && HasJob(old(spool.jobs), j) ==>
                  HasJob(spool.jobs, j) && spool.jobs[j].Finished()
    {
      hide Run, After;
      while queue != []
        invariant Valid() && popped.None? && active.None? && old(trace) <= trace
        invariant Reliable() ==> ServedOrQueued(old(queue), queue, old(spool.jobs), spool.jobs)
        decreases |calls| + |queue|
      {
        ghost var waiting, disk := queue, spool.jobs;
        ghost var before := trace;
        var job := PopJob();
        OtherThreads();
        JobsStay(before, trace);
        ServeJob(job);
        JobsStay(before, trace);
        ReleaseJob();
        if Reliable() {
          StillServed(old(queue), waiting, queue, job, old(spool.jobs), disk, spool.jobs);
        }
      }
    }

    method PopJob() returns (job: JobId)
      requires Valid() && popped.None? && queue != []
      modifies this`queue, this`popped, this`trace
      ensures Valid() && trace == old(trace) + [Pop] && job == old(queue)[0] && queue == old(queue)[1..]
              && popped == Some(job)
    {
      job := queue[0];
      OneMore(trace, Pop);
      queue, popped, trace := queue[1..], Some(job), trace + [Pop];
    }

    method ReleaseJob()
      requires Valid()
      modifies this`active, this`popped, this`trace
      ensures Valid() && trace == old(trace) + [Release] && active.None? && popped.None?
    {
      OneMore(trace, Release);
      active, popped, trace := None, None, trace + [Release];
    }

    /** A popped job runs unless it has ended meanwhile. */
    method ServeJob(job: JobId)
      requires Valid() && popped == Some(job) && active.None?
      modifies this`calls, this`queue, this`active, this`cancelEvents, this`submitting, this`cancelled, this`trace,
        this`childRunning, spool
      ensures old(trace) <= trace
      ensures Valid() && |calls| + |queue| <= |old(calls)| + |old(queue)|
      ensures old(queue) <= queue
      ensures Reliable() && HasJob(old(spool.jobs), job) ==> HasJob(spool.jobs, job) && spool.jobs[job].Finished()
    {
      var record := spool.LoadJob(job);
      if record.Success? && !record.value.state.Terminal() {
        ActivateJob(job);
        var _, _ := RunGuarded(job);
      }
    }

    /** The exception handler around _run: the failure is recorded unless the job has ended. */
    method RunGuarded(job: JobId) returns (ok: bool, recorded: bool)
      requires Running(job)
      modifies this`calls, this`queue, this`cancelEvents, this`submitting, this`cancelled, this`trace,
        this`childRunning, spool
      ensures old(trace) <= trace
      ensures Valid() && |calls| + |queue| <= |old(calls)| + |old(queue)|
      ensures old(queue) <= queue
      ensures ok ==> EndedRightly(job)
      ensures !ok ==> !childRunning
      ensures recorded ==> !ok && job in spool.jobs && spool.jobs[job].InState(FAILED)
      ensures Reliable() && old(Steady(job)) ==> job in spool.jobs && spool.jobs[job].Finished()
    {
      hide Run, After, Scheduled, OpenOrCancelled;
      recorded := false;
      ok := RunJob(job);
      if !ok {
        childRunning := false;
        recorded := SetJobState(job, FAILED, Some(Other("raised")));
      }
    }

    method ActivateJob(job: JobId)
      requires Valid() && popped == Some(job) && active.None?
      requires HasJob(spool.jobs, job) && !spool.jobs[job].record.value.state.Terminal()
      modifies this`active, this`trace
      ensures Running(job) && trace == old(trace) + [Activate(job)]
    {
      hide Run, After, Next, Allowed, Good, Scheduled;
      ActivateNext(After(trace), job);
      OneMore(trace, Activate(job));
      active, trace := Some(job), trace + [Activate(job)];
      ReachableGood(trace);
      HeldGood(After(trace), job);
    }

    /** What all this is for: at every step of this object's history, including the ones
        between two file writes, the guarantees of the state machine hold, and whatever
        was final then is unchanged on the disk now. */
    lemma HistoryIsSafe(k: nat)
      requires Valid() && Extends(trace, k)
      ensures Good(After(trace[..k])) && Good(World(true))
      ensures SnapshotsKept(After(trace[..k]).jobs, spool.jobs) && DiskPreserves(After(trace[..k]).jobs, spool.jobs)
    {
      RunPrefix(trace, k);
      ReachableGood(trace[..k]);
      ReachableGood(trace);
      EvidenceIsPermanent(trace, k);
    }
  }

  /** Nothing but snapshots changed; the active job's other files are as they were. */
  predicate OnlyRecordsChanged(disk: Disk, disk': Disk, active: Option<JobId>) {
    && (forall j :: j in disk ==> j in disk' && SameWork(disk[j], disk'[j]) && SameDerived(disk[j], disk'[j]))
    && (active.Some? && active.value in disk && disk[active.value].Open() ==>
          active.value in disk' && disk'[active.value].Open())
  }
}

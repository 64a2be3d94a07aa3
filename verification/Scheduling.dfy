/** The MOSS supervisor as a state machine: every interleaving of submit, cancel,
    resume and the scheduler thread, process death between any two file writes, and
    the recovery scan of a restart (linux/backend/moss_worker/supervisor.py). */
module Scheduling {
  import opened Sets
  import opened Wrappers
  import opened Windowing
  import opened Spool

  /** The disk, the supervisor's volatile fields, and two history sets: the jobs whose
      submit has not returned, and the jobs on which cancel returned before they ended.
      `popped` is the scheduler's local job between leaving the queue and its release. */
  datatype World = World(
    jobs: Disk, up: bool, queue: seq<JobId>, popped: Option<JobId>, active: Option<JobId>,
    cancelEvents: map<JobId, bool>, submitting: set<JobId>, cancelled: set<JobId>)

  const NO_WORLD := World(map[], false, [], None, None, map[], {}, {})

  datatype Action =
    | CreateDirectory(job: JobId, plan: Plan, durationMs: int)
    | CreateRecord(job: JobId, provenance: Provenance)
    | Enqueue(job: JobId)
    | AbandonSubmit(job: JobId)
    | Cancel(job: JobId)
    | CancelRaised(job: JobId)
    | Resume(job: JobId)
    | Pop
    | Activate(job: JobId)
    | Release
    | SetState(job: JobId, state: JobState, error: Option<ErrorCode>)
    | Replan(job: JobId, id: WindowId, newIds: seq<WindowId>, replacements: seq<WindowSpec>)
    | WriteRaw(job: JobId, id: WindowId, text: string)
    | WriteCheckpoint(job: JobId, result: WindowResult)
    | WriteDerived(job: JobId, write: Write)
    | Die
    | Recover(job: JobId)
    | Boot

  // ----- the snapshots the supervisor writes -----

  /** `_state`: a cancel request sticks until the job ends. */
  function NextSnapshot(previous: Snapshot, state: JobState, error: Option<ErrorCode>): Snapshot {
    previous.(state := state,
              error := if previous.error == Some(CancelRequested) && !state.Terminal() then Some(CancelRequested)
                else error,
              progress := if state == COMPLETED then 1.0 else previous.progress)
  }

  function CancelSnapshot(previous: Snapshot, active: bool): Snapshot {
    if active then NextSnapshot(previous, previous.state, Some(CancelRequested))
    else NextSnapshot(previous, CANCELLED, None)
  }

  // ----- plans -----

  predicate GoodWindow(w: WindowSpec, durationMs: int) {
    && 0 <= w.startMs < w.endMs <= durationMs
    && w.endMs <= w.startMs + w.windowMinutes * MINUTE_MS
    && w.windowMinutes in {8, 10}
  }

  ghost predicate PlanHas(plan: Plan, t: int) {
    exists id :: id in plan && Within(plan[id], t)
  }

  /** The planned windows lie inside [0, duration) and cover all of it. */
  ghost predicate CoversRecording(plan: Plan, durationMs: int) {
    && (forall id :: id in plan ==> GoodWindow(plan[id], durationMs))
    && (forall t :: 0 <= t < durationMs ==> PlanHas(plan, t))
  }

  predicate Distinct(ids: seq<WindowId>) {
    forall i, j :: 0 <= i < j < |ids| ==> ids[i] != ids[j]
  }

  function IdSet(ids: seq<WindowId>): set<WindowId> { set i | 0 <= i < |ids| :: ids[i] }

  lemma IdsOneMore(ids: seq<WindowId>)
    requires ids != [] && Distinct(ids)
    ensures ids[|ids| - 1] !in IdSet(ids[..|ids| - 1])
    ensures IdSet(ids) == IdSet(ids[..|ids| - 1]) + {ids[|ids| - 1]}
  {
    var n := |ids| - 1;
    assert forall i :: 0 <= i < n ==> ids[..n][i] == ids[i] && ids[i] in IdSet(ids[..n]);
  }

  function Assign(ids: seq<WindowId>, ws: seq<WindowSpec>): (m: Plan)
    requires |ids| == |ws| && Distinct(ids)
    ensures m.Keys == IdSet(ids)
    ensures forall i :: 0 <= i < |ids| ==> m[ids[i]] == ws[i]
  {
    if ids == [] then map[]
    else
      var n := |ids| - 1;
      var m := Assign(ids[..n], ws[..n]);
      IdsOneMore(ids);
      assert forall i :: 0 <= i < n ==> ids[..n][i] == ids[i];
      m[ids[n] := ws[n]]
  }

  lemma {:induction false} AssignSize(ids: seq<WindowId>, ws: seq<WindowSpec>)
    requires |ids| == |ws| && Distinct(ids)
    ensures |Assign(ids, ws)| == |ids|
  {
    if ids != [] {
      AssignSize(ids[..|ids| - 1], ws[..|ids| - 1]);
      IdsOneMore(ids);
    }
  }

  function Replanned(plan: Plan, id: WindowId, newIds: seq<WindowId>, ws: seq<WindowSpec>): Plan
    requires |newIds| == |ws| && Distinct(newIds)
  {
    (plan - {id}) + Assign(newIds, ws)
  }

  function CrashIds(f: Files): set<WindowId> {
    set id | id in f.checkpoints && f.checkpoints[id].Crash()
  }

  /** What a failed window may become: itself once, for the job's first child crash,
      or the windows of the next tier. */
  ghost predicate RetryAllowed(f: Files, id: WindowId, ws: seq<WindowSpec>)
    requires id in f.plan && id in f.checkpoints
  {
    CanRetry(f, id) && ws == if f.checkpoints[id].Crash() then [f.plan[id]] else RetryWindows(f.plan[id])
  }

  /** A failed window can be retried as the job's only child crash, or a tier down. */
  predicate CanRetry(f: Files, id: WindowId)
    requires id in f.plan && id in f.checkpoints
  {
    var r := f.checkpoints[id];
    if r.Crash() then |CrashIds(f)| <= 1 else r.error.Some? && r.error.value.Retryable() && f.plan[id].windowMinutes > 8
  }

  // ----- the transition relation -----

  predicate NonTerminal(w: World, j: JobId) {
    j in w.jobs && w.jobs[j].record.Some? && !w.jobs[j].record.value.state.Terminal()
  }

  ghost predicate Allowed(w: World, a: Action) {
    match a
    case CreateDirectory(j, plan, d) => w.up && j !in w.jobs && d > 0 && CoversRecording(plan, d)
    case CreateRecord(j, _) => w.up && j in w.submitting && j in w.jobs && w.jobs[j].record.None?
    case Enqueue(j) => w.up && j in w.submitting && j in w.jobs && w.jobs[j].record.Some?
    case AbandonSubmit(j) => w.up && j in w.submitting
    case Cancel(j) => w.up && NonTerminal(w, j)
    case CancelRaised(j) => w.up && NonTerminal(w, j)
    case Resume(j) => w.up && NonTerminal(w, j)
    case Pop => w.up && w.queue != [] && w.popped.None?
    case Activate(j) => w.up && w.popped == Some(j) && w.active.None? && NonTerminal(w, j)
    case Release => w.up
    case SetState(j, s, _) =>
      && w.up && NonTerminal(w, j)
      && (s == COMPLETED ==> && w.active == Some(j) && w.jobs[j].transcribed
                             && j in w.cancelEvents && !w.cancelEvents[j])
    case Replan(j, id, newIds, ws) =>
      && w.up && w.active == Some(j) && NonTerminal(w, j)
      && var f := w.jobs[j];
      && id in f.plan && id in f.checkpoints && f.checkpoints[id].state.Failed?
      && |newIds| == |ws| && NewIdentities(f, newIds)
      && RetryAllowed(f, id, ws)
    case WriteRaw(j, id, _) =>
      w.up && w.active == Some(j) && j in w.jobs && w.jobs[j].Open() && id in w.jobs[j].plan
        && !w.jobs[j].TerminalAt(id)
    case WriteCheckpoint(j, r) =>
      w.up && w.active == Some(j) && Permitted(w.jobs, PutCheckpoint(j, r)) && r.Terminal()
    case WriteDerived(j, write) =>
      w.up && w.active == Some(j) && write.job == j && (write.PutSpeakerState? || write.PutMerged? || write.PutEvents?)
      && Permitted(w.jobs, write)
    case Die => w.up
    case Recover(j) => !w.up && NonTerminal(w, j)
    case Boot => !w.up
  }

  /** The file replacement an action performs, if it performs one. */
  function WriteOf(w: World, a: Action): (r: Option<Write>)
    requires a.Replan? ==> |a.newIds| == |a.replacements| && Distinct(a.newIds)
  {
    match a
    case CreateDirectory(j, plan, d) => Some(NewDirectory(j, plan, d))
    case CreateRecord(j, p) => Some(PutRecord(j, Snapshot(QUEUED, p, 0.0, None)))
    case Cancel(j) =>
      if NonTerminal(w, j) then Some(PutRecord(j, CancelSnapshot(w.jobs[j].record.value, w.active == Some(j))))
        else None
    case Resume(j) =>
      if NonTerminal(w, j) && w.jobs[j].record.value.error == Some(CancelRequested)
      then Some(PutRecord(j, NextSnapshot(w.jobs[j].record.value, CANCELLED, None))) else None
    case SetState(j, s, e) =>
      if NonTerminal(w, j) then Some(PutRecord(j, NextSnapshot(w.jobs[j].record.value, s, e))) else None
    case Recover(j) =>
      if NonTerminal(w, j)
      then Some(PutRecord(j, NextSnapshot(w.jobs[j].record.value, RECOVERY_REQUIRED, Some(RecoveryError)))) else None
    case Replan(j, id, newIds, ws) =>
      if j in w.jobs then Some(PutPlan(j, Replanned(w.jobs[j].plan, id, newIds, ws))) else None
    case WriteRaw(j, id, text) => Some(PutRaw(j, id, text))
    case WriteCheckpoint(j, r) => Some(PutCheckpoint(j, r))
    case WriteDerived(_, write) => Some(write)
    case _ => None
  }

  /** The effect on the volatile fields and the history sets. */
  function Volatile(w: World, a: Action): World {
    match a
    case CreateDirectory(j, _, _) => w.(submitting := w.submitting + {j})
    case Enqueue(j) =>
      w.(queue := w.queue + [j], cancelEvents := w.cancelEvents[j := false], submitting := w.submitting - {j})
    case AbandonSubmit(j) => w.(submitting := w.submitting - {j})
    case Cancel(j) => w.(cancelEvents := w.cancelEvents[j := true], cancelled := w.cancelled + {j})
    case CancelRaised(j) => w.(cancelEvents := w.cancelEvents[j := true])
    case Resume(j) =>
      if NonTerminal(w, j) && w.jobs[j].record.value.error != Some(CancelRequested) && j !in w.queue
        && w.active != Some(j)
      then w.(queue := w.queue + [j], cancelEvents := w.cancelEvents[j := false]) else w
    case Pop => if w.queue == [] then w else w.(queue := w.queue[1..], popped := Some(w.queue[0]))
    case Activate(j) => w.(active := Some(j))
    case Release => w.(active := None, popped := None)
    case Die => w.(up := false, queue := [], popped := None, active := None, cancelEvents := map[], submitting := {})
    case Boot => w.(up := true)
    case _ => w
  }

  function Next(w: World, a: Action): World
    requires a.Replan? ==> |a.newIds| == |a.replacements| && Distinct(a.newIds)
  {
    var write := WriteOf(w, a);
    var v := Volatile(w, a);
    if write.Some? then v.(jobs := Apply(w.jobs, write.value)) else v
  }

  /** A run, given by its actions, from an empty machine. */
  ghost predicate Run(actions: seq<Action>) {
    actions == []
    || (var n := |actions| - 1; Run(actions[..n]) && Allowed(After(actions[..n]), actions[n]))
  }

  ghost function After(actions: seq<Action>): World {
    if actions == [] then NO_WORLD
    else
      var n := |actions| - 1;
      var a := actions[n];
      if a.Replan? && !(|a.newIds| == |a.replacements| && Distinct(a.newIds)) then After(actions[..n])
      else Next(After(actions[..n]), a)
  }

  lemma OneMore(actions: seq<Action>, a: Action)
    requires Run(actions) && Allowed(After(actions), a)
    ensures Run(actions + [a]) && After(actions + [a]) == Next(After(actions), a)
  {
    assert (actions + [a])[..|actions|] == actions;
  }

  /** The scheduler already runs a job whose own submit has not returned (someone
      resumed it in between): the one moment at which a cancel can be lost. */
  predicate Premature(w: World, j: JobId) { j in w.submitting && w.active == Some(j) }

  /** No cancel is called at a premature moment. Callers that take identities from
      submit's return value always comply. */
  ghost predicate Disciplined(actions: seq<Action>) {
    forall n :: 0 <= n < |actions| && actions[n].Cancel? ==> !Premature(After(actions[..n]), actions[n].job)
  }

  // ----- the invariant of one job -----

  function Tens(f: Files): set<WindowId> {
    set id | id in f.plan && f.plan[id].windowMinutes > 8
  }

  function CrashBudget(f: Files): nat { if CrashIds(f) <= f.plan.Keys then 1 else 0 }

  /** Identities still affordable: two for every planned ten-minute window, and one for
      a child crash that has not been retried yet. */
  function Outstanding(f: Files): nat { 2 * |Tens(f)| + CrashBudget(f) }

  ghost predicate Scheduled(f: Files) {
    && CoversRecording(f.plan, f.durationMs)
    && f.plan.Keys <= f.ever && f.checkpoints.Keys <= f.ever
    && AttemptsEnded(f)
    && (f.record.None? ==> f.checkpoints == map[])
    && |f.ever| + Outstanding(f) <= 3 * f.initial + 1
    && (f.transcribed ==> f.AllDone())
    && (f.InState(COMPLETED) ==> f.transcribed)
  }

  lemma NewFilesScheduled(plan: Plan, durationMs: int)
    requires CoversRecording(plan, durationMs)
    ensures Scheduled(NewFiles(plan, durationMs)) && Intact(NewFiles(plan, durationMs))
  {
    var f := NewFiles(plan, durationMs);
    SubsetSize(Tens(f), plan.Keys);
    assert CrashIds(f) == {};
  }

  lemma {:induction false} ReplanCovers(plan: Plan, id: WindowId, newIds: seq<WindowId>, ws: seq<WindowSpec>,
                                        durationMs: int)
    requires CoversRecording(plan, durationMs) && id in plan
    requires |newIds| == |ws| && Distinct(newIds) && forall k :: 0 <= k < |newIds| ==> newIds[k] !in plan
    requires forall k :: 0 <= k < |ws| ==> GoodWindow(ws[k], durationMs)
    requires forall t :: Within(plan[id], t) ==> SomeWithin(ws, t)
    ensures CoversRecording(Replanned(plan, id, newIds, ws), durationMs)
  {
    hide Assign, GoodWindow;
    var next := Replanned(plan, id, newIds, ws);
    forall i | i in next
      ensures GoodWindow(next[i], durationMs)
    {
      if i in Assign(newIds, ws) {
        var k :| 0 <= k < |newIds| && newIds[k] == i;
        assert next[i] == ws[k];
      }
    }
    forall t | 0 <= t < durationMs
      ensures PlanHas(next, t)
    {
      assert PlanHas(plan, t);
      var key :| key in plan && Within(plan[key], t);
      if key == id {
        var k :| 0 <= k < |ws| && Within(ws[k], t);
        assert newIds[k] in next && next[newIds[k]] == ws[k];
      } else {
        assert key in next && next[key] == plan[key];
      }
    }
  }

  /** Both kinds of retry replace a window by good windows over the same interval. */
  lemma RetryGood(f: Files, id: WindowId, ws: seq<WindowSpec>)
    requires id in f.plan && id in f.checkpoints && RetryAllowed(f, id, ws)
    requires GoodWindow(f.plan[id], f.durationMs)
    ensures forall k :: 0 <= k < |ws| ==> GoodWindow(ws[k], f.durationMs)
    ensures forall t :: Within(f.plan[id], t) ==> SomeWithin(ws, t)
    ensures 1 <= |ws| <= 2
    ensures f.checkpoints[id].Crash() ==> |ws| == 1
    ensures !f.checkpoints[id].Crash() ==> forall k :: 0 <= k < |ws| ==> ws[k].windowMinutes == 8
  {
    if f.checkpoints[id].Crash() {
      forall t | Within(f.plan[id], t)
        ensures SomeWithin(ws, t)
      {
        assert Within(ws[0], t);
      }
    } else {
      RetryReplaces(f.plan[id]);
    }
  }

  function AfterReplan(f: Files, plan: Plan): Files { f.(plan := plan, ever := f.ever + plan.Keys) }

  ghost predicate NewIdentities(f: Files, newIds: seq<WindowId>) {
    Distinct(newIds) && forall k :: 0 <= k < |newIds| ==> newIds[k] !in f.ever
  }

  lemma ReplanIdentities(f: Files, id: WindowId, newIds: seq<WindowId>, ws: seq<WindowSpec>)
    requires f.plan.Keys <= f.ever && NewIdentities(f, newIds) && |newIds| == |ws|
    ensures |AfterReplan(f, Replanned(f.plan, id, newIds, ws)).ever| == |f.ever| + |newIds|
  {
    AssignSize(newIds, ws);
    var added := Assign(newIds, ws);
    var g := AfterReplan(f, Replanned(f.plan, id, newIds, ws));
    assert g.ever == f.ever + added.Keys && f.ever !! added.Keys;
    assert |added.Keys| == |added|;
  }

  /** Repeating a crashed window spends the crash budget and nothing else. */
  lemma CrashReplanBudget(f: Files, id: WindowId, newIds: seq<WindowId>, ws: seq<WindowSpec>)
    requires f.plan.Keys <= f.ever && f.checkpoints.Keys <= f.ever && id in f.plan && id in f.checkpoints
    requires NewIdentities(f, newIds) && |newIds| == 1 && ws == [f.plan[id]]
    requires f.checkpoints[id].Crash() && |CrashIds(f)| <= 1
    ensures Outstanding(AfterReplan(f, Replanned(f.plan, id, newIds, ws))) + 1 == Outstanding(f)
  {
    hide Assign;
    var g := AfterReplan(f, Replanned(f.plan, id, newIds, ws));
    assert CrashIds(g) == CrashIds(f);
    assert id in CrashIds(f);
    OnlyMember(CrashIds(f), id);
    assert id != newIds[0] && id !in g.plan;
    assert CrashBudget(f) == 1 && CrashBudget(g) == 0;
    assert g.plan == (f.plan - {id})[newIds[0] := f.plan[id]];
    if id in Tens(f) {
      assert Tens(g) == Tens(f) - {id} + {newIds[0]};
    } else {
      assert Tens(g) == Tens(f);
    }
  }

  /** Going down a tier spends the two identities reserved for the ten-minute window. */
  lemma TierReplanBudget(f: Files, id: WindowId, newIds: seq<WindowId>, ws: seq<WindowSpec>)
    requires f.plan.Keys <= f.ever && f.checkpoints.Keys <= f.ever && id in f.plan && id in f.checkpoints
    requires NewIdentities(f, newIds) && |newIds| == |ws|
    requires !f.checkpoints[id].Crash() && f.plan[id].windowMinutes > 8
    requires forall k :: 0 <= k < |ws| ==> ws[k].windowMinutes == 8
    ensures Outstanding(AfterReplan(f, Replanned(f.plan, id, newIds, ws))) + 2 <= Outstanding(f)
  {
    var g := AfterReplan(f, Replanned(f.plan, id, newIds, ws));
    assert CrashIds(g) == CrashIds(f);
    assert id in Tens(f) && id !in CrashIds(f);
    forall i | i in g.plan && i !in f.plan - {id}
      ensures g.plan[i].windowMinutes == 8
    {
      var k :| 0 <= k < |newIds| && newIds[k] == i;
      assert g.plan[i] == ws[k];
    }
    SubsetSize(Tens(g), Tens(f) - {id});
    forall i | i in CrashIds(f)
      ensures i in g.plan ==> i in f.plan
    {
      assert i in f.ever;
    }
  }

  lemma ReplanScheduled(f: Files, id: WindowId, newIds: seq<WindowId>, ws: seq<WindowSpec>)
    requires Scheduled(f) && f.Open() && !f.InState(COMPLETED) && id in f.plan && id in f.checkpoints && !f.DoneAt(id)
    requires NewIdentities(f, newIds) && |newIds| == |ws| && RetryAllowed(f, id, ws)
    ensures Scheduled(AfterReplan(f, Replanned(f.plan, id, newIds, ws)))
  {
    hide Outstanding, Replanned, CrashIds, PlanHas, RetryWindows;
    assert !f.AllDone();
    RetryGood(f, id, ws);
    ReplanCovers(f.plan, id, newIds, ws, f.durationMs);
    ReplanIdentities(f, id, newIds, ws);
    if f.checkpoints[id].Crash() {
      CrashReplanBudget(f, id, newIds, ws);
    } else {
      TierReplanBudget(f, id, newIds, ws);
    }
  }

  lemma ReplanKeepsAttempts(f: Files, id: WindowId, newIds: seq<WindowId>, ws: seq<WindowSpec>)
    requires Intact(f) && f.checkpoints.Keys <= f.ever && id in f.checkpoints && !f.DoneAt(id)
    requires NewIdentities(f, newIds) && |newIds| == |ws|
    ensures PlanKeepsAttempts(f, Replanned(f.plan, id, newIds, ws))
  {
    forall i | i in f.checkpoints && f.checkpoints[i].Terminal()
      ensures i in Replanned(f.plan, id, newIds, ws) ==> Replanned(f.plan, id, newIds, ws)[i] == f.checkpoints[i].window
      ensures f.checkpoints[i].state.Done? ==> i in Replanned(f.plan, id, newIds, ws)
    {
      assert CheckpointIntact(f, i) && i in f.ever;
    }
  }

  lemma CheckpointScheduled(f: Files, r: WindowResult)
    requires Scheduled(f) && f.Open() && r.windowId in f.plan && r.Terminal() && !f.TerminalAt(r.windowId)
    ensures Scheduled(f.(checkpoints := f.checkpoints[r.windowId := r]))
  {
    var g := f.(checkpoints := f.checkpoints[r.windowId := r]);
    assert r.windowId !in f.checkpoints;
    assert CrashIds(f) <= CrashIds(g) <= CrashIds(f) + {r.windowId};
    assert Tens(g) == Tens(f);
  }

  lemma SamePlanScheduled(f: Files, g: Files)
    requires Scheduled(f) && g.plan == f.plan && g.ever == f.ever && g.checkpoints == f.checkpoints
    requires g.durationMs == f.durationMs && g.initial == f.initial
    requires g.record.Some? && (g.InState(COMPLETED) ==> g.transcribed) && (g.transcribed ==> f.AllDone())
    ensures Scheduled(g)
  {
    assert CrashIds(g) == CrashIds(f) && Tens(g) == Tens(f);
  }

  /** What an action that replaces job.json was entitled to. */
  lemma RecordWrites(w: World, a: Action)
    requires Allowed(w, a) && WriteOf(w, a).Some? && WriteOf(w, a).value.PutRecord?
    ensures var write := WriteOf(w, a).value;
            && write.job in w.jobs && !w.jobs[write.job].Finished()
            && (w.jobs[write.job].record.Some? ==>
                write.snapshot.provenance == w.jobs[write.job].record.value.provenance)
            && (write.snapshot.state == COMPLETED ==> w.jobs[write.job].transcribed)
  {
  }

  /** Every other write is one the store permits, on the job the scheduler runs. */
  lemma RunnerWrites(w: World, a: Action)
    requires Allowed(w, a) && WriteOf(w, a).Some? && !WriteOf(w, a).value.PutRecord?
    ensures a.CreateDirectory? || a.Replan? || a.WriteRaw? || a.WriteCheckpoint? || a.WriteDerived?
    ensures var write := WriteOf(w, a).value;
            !a.CreateDirectory? ==> write.job in w.jobs && w.jobs[write.job].Open() && !write.NewDirectory?
  {
  }

  lemma WriteKeepsScheduled(w: World, a: Action, j: JobId)
    requires Allowed(w, a) && WriteOf(w, a).Some? && WriteOf(w, a).value.job == j && j in w.jobs
    requires Intact(w.jobs[j]) && Scheduled(w.jobs[j])
    ensures !WriteOf(w, a).value.NewDirectory? && Permitted(w.jobs, WriteOf(w, a).value)
    ensures Scheduled(Replace(w.jobs[j], WriteOf(w, a).value))
  {
    var f := w.jobs[j];
    var write := WriteOf(w, a).value;
    if write.PutRecord? {
      RecordWrites(w, a);
      SamePlanScheduled(f, Replace(f, write));
    } else {
      RunnerWrites(w, a);
      if a.Replan? {
        ReplanKeepsAttempts(f, a.id, a.newIds, a.replacements);
        ReplanScheduled(f, a.id, a.newIds, a.replacements);
      } else if a.WriteCheckpoint? {
        CheckpointScheduled(f, a.result);
      } else {
        SamePlanScheduled(f, Replace(f, write));
      }
    }
  }

  // ----- the invariant of the machine -----

  ghost predicate DiskGood(disk: Disk) {
    DiskIntact(disk) && forall j :: j in disk ==> Scheduled(disk[j])
  }

  /** Every job the scheduler holds has a cancel event, and a job being submitted has a directory. */
  predicate Held(w: World, j: JobId) { j in w.queue || w.popped == Some(j) || w.active == Some(j) }

  ghost predicate VolatileGood(w: World) {
    && (forall j :: Held(w, j) ==> j in w.cancelEvents && j in w.jobs)
    && (!w.up ==> w.queue == [] && w.popped.None? && w.active.None? && w.submitting == {} && w.cancelEvents == map[])
    && (w.active.Some? ==> w.popped == w.active)
    && w.submitting <= w.jobs.Keys
  }

  ghost predicate Good(w: World) { DiskGood(w.jobs) && VolatileGood(w) }

  lemma JobsAfter(w: World, a: Action)
    requires Allowed(w, a)
    ensures Next(w, a).jobs == if WriteOf(w, a).Some? then Apply(w.jobs, WriteOf(w, a).value) else w.jobs
  {
  }

  lemma ActionKeepsDisk(w: World, a: Action)
    requires DiskGood(w.jobs) && Allowed(w, a)
    ensures DiskGood(Next(w, a).jobs) && DiskPreserves(w.jobs, Next(w, a).jobs)
  {
    hide Scheduled, Intact, Permitted, Next, Allowed, WriteOf, CoversRecording;
    ReplanShape(w, a);
    JobsAfter(w, a);
    if WriteOf(w, a).Some? {
      var write := WriteOf(w, a).value;
      WriteKinds(w, a);
      if write.NewDirectory? {
        NewFilesScheduled(write.plan, write.durationMs);
      } else {
        WriteKeepsScheduled(w, a, write.job);
      }
      WriteKeepsIntact(w.jobs, write);
    }
  }

  lemma ReplanShape(w: World, a: Action)
    requires Allowed(w, a)
    ensures a.Replan? ==> |a.newIds| == |a.replacements| && Distinct(a.newIds)
  {
  }

  /** A write makes the directory of a new job, or replaces a file of a job there is. */
  lemma WriteKinds(w: World, a: Action)
    requires Allowed(w, a) && WriteOf(w, a).Some?
    ensures var write := WriteOf(w, a).value;
            if write.NewDirectory? then CoversRecording(write.plan, write.durationMs) && Permitted(w.jobs, write)
            else write.job in w.jobs
  {
    if WriteOf(w, a).value.PutRecord? {
      RecordWrites(w, a);
    } else {
      RunnerWrites(w, a);
      CreatedWrite(w, a);
    }
  }

  lemma CreatedWrite(w: World, a: Action)
    requires Allowed(w, a) && WriteOf(w, a).Some?
    ensures WriteOf(w, a).value.NewDirectory? ==>
              && WriteOf(w, a).value.job !in w.jobs
                && CoversRecording(WriteOf(w, a).value.plan, WriteOf(w, a).value.durationMs)
              && Permitted(w.jobs, WriteOf(w, a).value)
    ensures a.CreateDirectory? ==> WriteOf(w, a).value.NewDirectory?
  {
  }

  lemma ActionKeepsVolatile(w: World, a: Action, jobs: Disk)
    requires VolatileGood(w) && Allowed(w, a) && w.jobs.Keys <= jobs.Keys
    requires a.CreateDirectory? ==> a.job in jobs
    ensures VolatileGood(Volatile(w, a).(jobs := jobs))
  {
  }

  lemma ActionKeepsGood(w: World, a: Action)
    requires Good(w) && Allowed(w, a)
    ensures Good(Next(w, a)) && DiskPreserves(w.jobs, Next(w, a).jobs)
  {
    JobsAfter(w, a);
    ActionKeepsDisk(w, a);
    ActionKeepsVolatile(w, a, Next(w, a).jobs);
  }

  /** Main result: in every reachable state, between any two writes and across restarts,
      evidence is intact, plans cover their recordings, the attempt bound holds and
      COMPLETED means every planned window is done. */
  lemma {:induction false} ReachableGood(actions: seq<Action>)
    requires Run(actions)
    ensures Good(After(actions))
  {
    if actions != [] {
      var n := |actions| - 1;
      ReachableGood(actions[..n]);
      ActionKeepsGood(After(actions[..n]), actions[n]);
    }
  }

  /** The same, read off for one job. */
  lemma JobGuarantees(actions: seq<Action>, j: JobId)
    requires Run(actions) && j in After(actions).jobs
    ensures var f := After(actions).jobs[j];
            && (forall id :: id in f.plan ==> 0 <= f.plan[id].startMs < f.plan[id].endMs <= f.durationMs)
            && (forall t :: 0 <= t < f.durationMs ==> PlanHas(f.plan, t))
            && (forall id :: f.DoneAt(id) ==> id in f.plan && f.plan[id] == f.checkpoints[id].window)
            && (forall id :: f.TerminalAt(id) ==> id in f.raw && f.raw[id] == f.checkpoints[id].raw)
            && (forall id, i :: id in f.checkpoints && 0 <= i < |f.checkpoints[id].segments| ==>
                                  f.checkpoints[id].segments[i].windowId == id)
            && (f.InState(COMPLETED) ==> f.transcribed && forall id :: id in f.plan ==> f.DoneAt(id))
            && |f.ever| <= 3 * f.initial + 1 && f.plan.Keys <= f.ever && f.checkpoints.Keys <= f.ever
  {
    ReachableGood(actions);
    var f := After(actions).jobs[j];
    forall id | id in f.checkpoints
      ensures CheckpointIntact(f, id)
    {}
  }

  // ----- what later states keep of earlier ones -----

  predicate Extends(actions: seq<Action>, k: nat) { k <= |actions| }

  lemma {:induction false} RunPrefix(actions: seq<Action>, k: nat)
    requires Run(actions) && Extends(actions, k)
    ensures Run(actions[..k])
  {
    if k < |actions| {
      RunPrefix(actions[..|actions| - 1], k);
      assert actions[..|actions| - 1][..k] == actions[..k];
    } else {
      assert actions[..k] == actions;
    }
  }

  /** A snapshot in a terminal state is final. */
  predicate SnapshotsKept(disk: Disk, disk': Disk) {
    forall j :: j in disk && disk[j].Finished() ==> j in disk' && disk'[j].record == disk[j].record
  }

  lemma ActionKeepsTerminal(w: World, a: Action)
    requires Allowed(w, a)
    ensures SnapshotsKept(w.jobs, Next(w, a).jobs)
  {
    JobsAfter(w, a);
    if WriteOf(w, a).Some? {
      if WriteOf(w, a).value.PutRecord? {
        RecordWrites(w, a);
      } else {
        RunnerWrites(w, a);
      }
    }
  }

  /** Terminal snapshots never change, finished attempts and their raw text never
      change, and nothing in a COMPLETED job changes: from any state of a run to any
      later one, whatever happens in between. */
  lemma {:induction false} EvidenceIsPermanent(actions: seq<Action>, k: nat)
    requires Run(actions) && Extends(actions, k)
    ensures SnapshotsKept(After(actions[..k]).jobs, After(actions).jobs)
    ensures DiskPreserves(After(actions[..k]).jobs, After(actions).jobs)
  {
    if k < |actions| {
      var n := |actions| - 1;
      var front := actions[..n];
      assert front[..k] == actions[..k];
      EvidenceIsPermanent(front, k);
      ReachableGood(front);
      ActionKeepsTerminal(After(front), actions[n]);
      ActionKeepsGood(After(front), actions[n]);
      PreservesTransitive(After(actions[..k]).jobs, After(front).jobs, After(actions).jobs);
    } else {
      assert actions[..k] == actions;
    }
  }

  // ----- cancellation -----

  /** A cancelled job has ended without completing, or carries the durable request and,
      while the scheduler holds it, a raised event. */
  predicate CancelHolds(w: World, j: JobId) {
    && j in w.jobs && w.jobs[j].record.Some?
    && var s := w.jobs[j].record.value;
    || s.state in {FAILED, CANCELLED}
    || (!s.state.Terminal() && s.error == Some(CancelRequested)
        && (Held(w, j) ==> j in w.cancelEvents && w.cancelEvents[j]))
  }

  predicate SubmitHolds(w: World, j: JobId) {
    j in w.cancelled ==> j in w.jobs && w.jobs[j].Finished()
  }

  ghost predicate CancelGood(w: World) {
    && (forall j :: j in w.cancelled ==> CancelHolds(w, j))
    && (forall j :: j in w.submitting ==> SubmitHolds(w, j))
  }

  /** `t` is a `_state` transition out of the non-terminal `s`. */
  ghost predicate StateChange(s: Snapshot, t: Snapshot, maySucceed: bool) {
    && !s.state.Terminal()
    && exists state, error :: t == NextSnapshot(s, state, error) && (state == COMPLETED ==> maySucceed)
  }

  /** The snapshot an action writes over an existing one is a `_state` transition. */
  lemma SnapshotWrites(w: World, a: Action)
    requires Allowed(w, a) && WriteOf(w, a).Some? && WriteOf(w, a).value.PutRecord? && !a.CreateRecord?
    ensures WriteOf(w, a).value.job == a.job && NonTerminal(w, a.job)
    ensures StateChange(w.jobs[a.job].record.value, WriteOf(w, a).value.snapshot, a.SetState?)
  {
    var s := w.jobs[a.job].record.value;
    var t := WriteOf(w, a).value.snapshot;
    match a
    case Cancel(j) =>
      if w.active == Some(j) {
        assert t == NextSnapshot(s, s.state, Some(CancelRequested));
      } else {
        assert t == NextSnapshot(s, CANCELLED, None);
      }
    case Resume(j) => assert t == NextSnapshot(s, CANCELLED, None);
    case SetState(j, state, error) => assert t == NextSnapshot(s, state, error);
    case Recover(j) => assert t == NextSnapshot(s, RECOVERY_REQUIRED, Some(RecoveryError));
    case _ =>
  }

  /** What any action leaves of one job's snapshot. */
  lemma RecordAfter(w: World, a: Action, j: JobId)
    requires Allowed(w, a) && j in w.jobs && w.jobs[j].record.Some?
    ensures j in Next(w, a).jobs && Next(w, a).jobs[j].record.Some?
    ensures var s := w.jobs[j].record.value;
            var t := Next(w, a).jobs[j].record.value;
            t == s || StateChange(s, t, a.SetState? && a.job == j)
  {
    JobsAfter(w, a);
    if WriteOf(w, a).Some? {
      if WriteOf(w, a).value.PutRecord? {
        if !a.CreateRecord? {
          SnapshotWrites(w, a);
        }
      } else {
        RunnerWrites(w, a);
      }
    }
  }

  /** Progress is one exactly in a COMPLETED job. */
  predicate ProgressHolds(disk: Disk, j: JobId) {
    j in disk && disk[j].record.Some? ==>
        disk[j].record.value.progress == if disk[j].InState(COMPLETED) then 1.0 else 0.0
  }

  lemma {:induction false} ProgressMeansCompleted(actions: seq<Action>, j: JobId)
    requires Run(actions)
    ensures ProgressHolds(After(actions).jobs, j)
  {
    if actions != [] {
      var n := |actions| - 1;
      var w := After(actions[..n]);
      ProgressMeansCompleted(actions[..n], j);
      if j in w.jobs && w.jobs[j].record.Some? {
        RecordAfter(w, actions[n], j);
      } else {
        FirstRecord(w, actions[n], j);
      }
    }
  }

  lemma FirstRecord(w: World, a: Action, j: JobId)
    requires Allowed(w, a) && !(j in w.jobs && w.jobs[j].record.Some?)
    ensures j in Next(w, a).jobs && Next(w, a).jobs[j].record.Some? ==>
              Next(w, a).jobs[j].InState(QUEUED) && Next(w, a).jobs[j].record.value.progress == 0.0
  {
    JobsAfter(w, a);
  }

  /** The durable cancel request of a job. */
  predicate Requested(disk: Disk, j: JobId) {
    j in disk && disk[j].record.Some? && disk[j].record.value.error == Some(CancelRequested)
  }

  /** A durable cancel request is never taken back: from any moment of a run on, a job that has
      one keeps it until it has ended, whatever states it passes through, restarts included. */
  lemma {:induction false} RequestIsKept(actions: seq<Action>, k: nat, j: JobId)
    requires Run(actions) && Extends(actions, k) && Requested(After(actions[..k]).jobs, j)
    ensures j in After(actions).jobs && (Requested(After(actions).jobs, j) || After(actions).jobs[j].Finished())
  {
    if k < |actions| {
      var n := |actions| - 1;
      var front := actions[..n];
      assert front[..k] == actions[..k];
      RequestIsKept(front, k, j);
      if After(front).jobs[j].Finished() {
        ActionKeepsTerminal(After(front), actions[n]);
      } else {
        RecordAfter(After(front), actions[n], j);
      }
    } else {
      assert actions[..k] == actions;
    }
  }

  /** No step takes the raised event from a job that a cancel has asked to stop. */
  lemma CancelEventStep(w: World, a: Action, j: JobId)
    requires VolatileGood(w) && Allowed(w, a) && NonTerminal(w, j) && j !in w.submitting
    requires w.jobs[j].record.value.error == Some(CancelRequested)
    requires Held(w, j) ==> j in w.cancelEvents && w.cancelEvents[j]
    ensures Held(Next(w, a), j) ==> j in Next(w, a).cancelEvents && Next(w, a).cancelEvents[j]
  {
    hide WriteOf, Apply, CoversRecording, RetryAllowed, NewIdentities, Permitted;
  }

  lemma SetStateWrites(w: World, a: Action)
    requires Allowed(w, a) && a.SetState?
    ensures a.job in Next(w, a).jobs && Next(w, a).jobs[a.job].InState(a.state)
  {
  }

  lemma CancelledJobStep(w: World, a: Action, j: JobId)
    requires VolatileGood(w) && Allowed(w, a) && j in w.cancelled && CancelHolds(w, j)
    requires j in w.submitting ==> SubmitHolds(w, j)
    ensures CancelHolds(Next(w, a), j)
  {
    hide VolatileGood, Next, WriteOf, CoversRecording, RetryAllowed, NewIdentities, Permitted;
    RecordAfter(w, a, j);
    if NonTerminal(w, j) {
      CancelEventStep(w, a, j);
      if a.SetState? {
        SetStateWrites(w, a);
      }
    }
  }

  lemma CancelCall(w: World, j: JobId)
    requires Allowed(w, Action.Cancel(j))
    ensures CancelHolds(Next(w, Action.Cancel(j)), j)
    ensures w.active != Some(j) ==> Next(w, Action.Cancel(j)).jobs[j].Finished()
  {
  }

  lemma SubmittingJobStep(w: World, a: Action, j: JobId)
    requires VolatileGood(w) && Allowed(w, a) && (a == Action.Cancel(j) ==> !Premature(w, j))
    requires j in Next(w, a).submitting && (j in w.submitting ==> SubmitHolds(w, j))
    requires j in w.cancelled ==> CancelHolds(w, j)
    ensures SubmitHolds(Next(w, a), j)
  {
    JobsAfter(w, a);
    if a == Action.Cancel(j) {
      CancelCall(w, j);
    } else if j in w.submitting {
      ActionKeepsTerminal(w, a);
    }
  }

  lemma ActionKeepsCancel(w: World, a: Action)
    requires VolatileGood(w) && CancelGood(w) && Allowed(w, a)
    requires a.Cancel? ==> !Premature(w, a.job)
    ensures CancelGood(Next(w, a))
  {
    var v := Next(w, a);
    forall j | j in v.cancelled
      ensures CancelHolds(v, j)
    {
      if a == Action.Cancel(j) {
        CancelCall(w, j);
      } else {
        CancelledJobStep(w, a, j);
      }
    }
    forall j | j in v.submitting
      ensures SubmitHolds(v, j)
    {
      SubmittingJobStep(w, a, j);
    }
  }

  lemma {:induction false} CancelReachable(actions: seq<Action>)
    requires Run(actions) && Disciplined(actions)
    ensures CancelGood(After(actions))
  {
    if actions != [] {
      var n := |actions| - 1;
      var front := actions[..n];
      forall m | 0 <= m < n && front[m].Cancel?
        ensures !Premature(After(front[..m]), front[m].job)
      {
        assert front[..m] == actions[..m] && front[m] == actions[m];
      }
      CancelReachable(front);
      ReachableGood(front);
      ActionKeepsCancel(After(front), actions[n]);
    }
  }

  /** Once cancel has returned on a job that had not ended, no continuation completes it,
      whatever submits, cancels, resumes, scheduler steps and restarts follow. */
  lemma CancelledNeverCompletes(actions: seq<Action>, k: nat)
    requires Run(actions) && Disciplined(actions) && k < |actions| && actions[k].Cancel?
    ensures actions[k].job in After(actions).cancelled && actions[k].job in After(actions).jobs
    ensures !After(actions).jobs[actions[k].job].InState(COMPLETED)
  {
    CancelReachable(actions);
    CancelledGrows(actions, k);
    assert CancelHolds(After(actions), actions[k].job);
  }

  lemma {:induction false} CancelledGrows(actions: seq<Action>, k: nat)
    requires Run(actions) && k < |actions| && actions[k].Cancel?
    ensures actions[k].job in After(actions).cancelled
    ensures actions[k].job in After(actions).jobs
  {
    hide Good, Next, Allowed;
    var n := |actions| - 1;
    var front := actions[..n];
    CancelledKept(After(front), actions[n]);
    if k < n {
      assert front[k] == actions[k];
      CancelledGrows(front, k);
    }
  }

  lemma CancelledKept(w: World, a: Action)
    requires Allowed(w, a)
    ensures w.cancelled <= Next(w, a).cancelled && w.jobs.Keys <= Next(w, a).jobs.Keys
    ensures a.Cancel? ==> a.job in Next(w, a).cancelled && a.job in Next(w, a).jobs
  {
    JobsAfter(w, a);
  }

  const ONE_WINDOW := WindowSpec(0, 1000, 0, 10)
  const ONE_PLAN: Plan := map[Initial(1) := ONE_WINDOW]

  function OneJob(provenance: Provenance): Files {
    NewFiles(ONE_PLAN, 1000).(record := Some(Snapshot(QUEUED, provenance, 0.0, None)))
  }

  lemma DirectoryCreated(job: JobId) returns (t: seq<Action>)
    ensures Run(t)
    ensures After(t) == World(map[job := NewFiles(ONE_PLAN, 1000)], true, [], None, None, map[], {job}, {})
  {
    forall t | 0 <= t < 1000
      ensures PlanHas(ONE_PLAN, t)
    {
      assert Within(ONE_PLAN[Initial(1)], t);
    }
    t := [] + [Boot];
    OneMore([], Boot);
    assert After(t) == NO_WORLD.(up := true);
    OneMore(t, CreateDirectory(job, ONE_PLAN, 1000));
    t := t + [CreateDirectory(job, ONE_PLAN, 1000)];
  }

  /** A job of one window whose submit has not returned is resumed by somebody else. */
  lemma CreatedAndResumed(job: JobId, provenance: Provenance) returns (t: seq<Action>)
    ensures Run(t)
    ensures After(t) == World(map[job := OneJob(provenance)], true, [job], None, None, map[job := false], {job}, {})
  {
    t := DirectoryCreated(job);
    OneMore(t, CreateRecord(job, provenance));
    t := t + [CreateRecord(job, provenance)];
    assert After(t) == World(map[job := OneJob(provenance)], true, [], None, None, map[], {job}, {});
    OneMore(t, Resume(job));
    t := t + [Resume(job)];
  }

  lemma Activated(t: seq<Action>, job: JobId, provenance: Provenance) returns (t': seq<Action>)
    requires Run(t)
    requires After(t) == World(map[job := OneJob(provenance)], true, [job], None, None, map[job := false], {job}, {})
    ensures Run(t')
    ensures After(t')
            == World(map[job := OneJob(provenance)], true, [], Some(job), Some(job), map[job := false], {job}, {})
  {
    OneMore(t, Pop);
    t' := t + [Pop];
    assert After(t') == World(map[job := OneJob(provenance)], true, [], Some(job), None, map[job := false], {job}, {});
    OneMore(t', Activate(job));
    t' := t' + [Activate(job)];
  }

  /** Such a moment is reachable: the recording has one window, somebody resumes the job
      between its creation and the return of submit, and the window gets done. */
  lemma PrematureMomentReachable(job: JobId, provenance: Provenance)
    ensures exists actions ::
              && Run(actions) && After(actions).up && NonTerminal(After(actions), job)
              && Premature(After(actions), job) && After(actions).jobs[job].transcribed
  {
    hide Run, After, Next, Allowed;
    var t := CreatedAndResumed(job, provenance);
    t := Activated(t, job, provenance);
    t := RawWritten(t, job, provenance);
    t := WindowDone(t, job, provenance);
    t := TranscriptWritten(t, job, provenance);
    var w := After(t);
    assert w.jobs[job] == DoneJob(provenance).(transcribed := true);
  }

  function WithRaw(provenance: Provenance): Files { OneJob(provenance).(raw := map[Initial(1) := ""]) }

  function OnlyResult(provenance: Provenance): WindowResult {
    WindowResult(Initial(1), ONE_WINDOW, Done, provenance, "", [], None)
  }

  function DoneJob(provenance: Provenance): Files {
    WithRaw(provenance).(checkpoints := map[Initial(1) := OnlyResult(provenance)])
  }

  lemma RawWritten(t: seq<Action>, job: JobId, provenance: Provenance) returns (t': seq<Action>)
    requires Run(t)
    requires After(t)
             == World(map[job := OneJob(provenance)], true, [], Some(job), Some(job), map[job := false], {job}, {})
    ensures Run(t')
    ensures After(t')
            == World(map[job := WithRaw(provenance)], true, [], Some(job), Some(job), map[job := false], {job}, {})
  {
    hide Run, After;
    OneMore(t, WriteRaw(job, Initial(1), ""));
    t' := t + [WriteRaw(job, Initial(1), "")];
  }

  lemma WindowDone(t: seq<Action>, job: JobId, provenance: Provenance) returns (t': seq<Action>)
    requires Run(t)
    requires After(t)
             == World(map[job := WithRaw(provenance)], true, [], Some(job), Some(job), map[job := false], {job}, {})
    ensures Run(t')
    ensures After(t')
            == World(map[job := DoneJob(provenance)], true, [], Some(job), Some(job), map[job := false], {job}, {})
  {
    hide Run, After;
    OneMore(t, WriteCheckpoint(job, OnlyResult(provenance)));
    t' := t + [WriteCheckpoint(job, OnlyResult(provenance))];
  }

  lemma TranscriptWritten(t: seq<Action>, job: JobId, provenance: Provenance) returns (t': seq<Action>)
    requires Run(t)
    requires After(t)
             == World(map[job := DoneJob(provenance)], true, [], Some(job), Some(job), map[job := false], {job}, {})
    ensures Run(t')
    ensures After(t') ==
            World(map[job := DoneJob(provenance).(transcribed := true)], true, [], Some(job), Some(job),
                  map[job := false], {job}, {})
  {
    hide Run, After;
    OneMore(t, WriteDerived(job, PutMerged(job, "")));
    t' := t + [WriteDerived(job, PutMerged(job, ""))];
  }
}

/** The filesystem spool of linux/backend/moss_worker/storage.py. A job is a set of
    files; each file is replaced atomically, and a process may die between any two
    replacements. The ghost log of MossSpool records every replacement, so its
    prefixes are exactly the disk states a crash can leave behind. */
module Spool {
  import opened Wrappers
  import opened Windowing

  type JobId = string

  /** `w0001`-style identities of the first plan, and uuid identities of retries. */
  datatype WindowId = Initial(index: nat) | Retry(uuid: nat)

  datatype JobState =
    | QUEUED | PREPARING | ENCODING | BUILDING_EMBEDS | DECODING | PARSING | REMAPPING | MERGING
    | COMPLETED | FAILED | CANCELLED | RECOVERY_REQUIRED
  {
    predicate Terminal() { this in {COMPLETED, FAILED, CANCELLED} }
    predicate Native() { this in {ENCODING, BUILDING_EMBEDS, DECODING, PARSING} }
  }

  datatype ErrorCode =
    | CancelRequested
    | RecoveryError
    | ChildCrashed(detail: string)
    | BudgetExceeded | ContextOverflow | Oom | OutOfMemory | GenerationLimit
    | WindowFailed
    | Other(text: string)
  {
    predicate Retryable() { this in {BudgetExceeded, ContextOverflow, Oom, OutOfMemory, GenerationLimit} }
  }

  datatype Provenance = Provenance(audioSha: int, manifestSha: int)

  datatype Snapshot = Snapshot(state: JobState, provenance: Provenance, progress: real, error: Option<ErrorCode>)

  datatype AttemptState = Pending | Running | Done | Failed

  /** The part of a segment that the spool validates. */
  datatype SegmentTag = SegmentTag(windowId: WindowId, manifestSha: int)

  datatype WindowResult = WindowResult(
    windowId: WindowId, window: WindowSpec, state: AttemptState, provenance: Provenance,
    raw: string, segments: seq<SegmentTag>, error: Option<ErrorCode>)
  {
    predicate Terminal() { state.Done? || state.Failed? }
    predicate Crash() { error.Some? && error.value.ChildCrashed? }
    predicate SegmentsMatch() {
      forall i :: 0 <= i < |segments| ==>
                    segments[i].windowId == windowId && segments[i].manifestSha == provenance.manifestSha
    }
  }

  type Plan = map<WindowId, WindowSpec>

  /** One job directory. `record` is the snapshot in job.json, absent until creation
      commits. `initial` and `ever` are history: the size of the first plan and every
      window identity ever planned. */
  datatype Files = Files(
    record: Option<Snapshot>, durationMs: int, plan: Plan,
    checkpoints: map<WindowId, WindowResult>, raw: map<WindowId, string>,
    speakerState: string, merged: string, events: string,
    initial: nat, ever: set<WindowId>, transcribed: bool)
  {
    predicate InState(s: JobState) { record.Some? && record.value.state == s }
    predicate Finished() { record.Some? && record.value.state.Terminal() }
    predicate Open() { record.Some? && record.value.state != COMPLETED }
    predicate DoneAt(id: WindowId) { id in checkpoints && checkpoints[id].state.Done? }
    predicate TerminalAt(id: WindowId) { id in checkpoints && checkpoints[id].Terminal() }
    predicate AllDone() { forall id :: id in plan ==> DoneAt(id) }
  }

  type Disk = map<JobId, Files>

  /** One atomic file replacement; NewDirectory stands for the files written before job.json. */
  datatype Write =
    | NewDirectory(job: JobId, plan: Plan, durationMs: int)
    | PutRecord(job: JobId, snapshot: Snapshot)
    | PutPlan(job: JobId, plan: Plan)
    | PutRaw(job: JobId, id: WindowId, text: string)
    | PutCheckpoint(job: JobId, result: WindowResult)
    | PutSpeakerState(job: JobId, text: string)
    | PutMerged(job: JobId, text: string)
    | PutEvents(job: JobId, text: string)

  function Replace(f: Files, w: Write): Files {
    match w
    case NewDirectory(_, _, _) => f
    case PutRecord(_, snapshot) => f.(record := Some(snapshot))
    case PutPlan(_, plan) => f.(plan := plan, ever := f.ever + plan.Keys)
    case PutRaw(_, id, text) => f.(raw := f.raw[id := text])
    case PutCheckpoint(_, result) => f.(checkpoints := f.checkpoints[result.windowId := result])
    case PutSpeakerState(_, text) => f.(speakerState := text)
    case PutMerged(_, text) => f.(merged := text, transcribed := f.AllDone())
    case PutEvents(_, text) => f.(events := text)
  }

  function NewFiles(plan: Plan, durationMs: int): Files {
    Files(None, durationMs, plan, map[], map[], "", "", "", |plan|, plan.Keys, false)
  }

  function Apply(disk: Disk, w: Write): Disk {
    if w.NewDirectory? then disk[w.job := NewFiles(w.plan, w.durationMs)]
    else if w.job in disk then disk[w.job := Replace(disk[w.job], w)]
    else disk
  }

  function ApplyAll(disk: Disk, ws: seq<Write>): Disk {
    if ws == [] then disk else Apply(ApplyAll(disk, ws[..|ws| - 1]), ws[|ws| - 1])
  }

  lemma ApplyOneMore(disk: Disk, ws: seq<Write>, w: Write)
    ensures ApplyAll(disk, ws + [w]) == Apply(ApplyAll(disk, ws), w)
  {
    assert (ws + [w])[..|ws|] == ws;
  }

  // ----- what the store checks before it replaces a file -----

  /** A checkpoint belongs to its job: provenance, plan and segments agree. */
  predicate ResultMatches(f: Files, r: WindowResult) {
    && f.record.Some?
    && r.provenance == f.record.value.provenance
    && r.windowId in f.plan && f.plan[r.windowId] == r.window
    && r.SegmentsMatch()
  }

  /** The plan keeps every finished window; a failed one may go, but not move. */
  predicate PlanKeepsAttempts(f: Files, plan: Plan) {
    forall id :: id in f.checkpoints && f.checkpoints[id].Terminal() ==>
                   && (id in plan ==> plan[id] == f.checkpoints[id].window)
                   && (f.checkpoints[id].state.Done? ==> id in plan)
  }

  predicate Permitted(disk: Disk, w: Write) {
    if w.NewDirectory? then w.job !in disk
    else
      && w.job in disk
      && var f := disk[w.job];
      match w
      case NewDirectory(_, _, _) => false
      case PutRecord(_, snapshot) =>
        if f.record.None? then f.checkpoints == map[]
        else f.Open() && snapshot.provenance == f.record.value.provenance
      case PutPlan(_, plan) => f.Open() && PlanKeepsAttempts(f, plan)
      case PutRaw(_, id, _) => f.Open() && !f.TerminalAt(id)
      case PutCheckpoint(_, r) =>
        f.Open() && ResultMatches(f, r) && !f.TerminalAt(r.windowId)
        && r.windowId in f.raw && f.raw[r.windowId] == r.raw
      case PutSpeakerState(_, _) => f.Open()
      case PutMerged(_, _) => f.Open()
      case PutEvents(_, _) => f.Open()
  }

  predicate Legal(disk: Disk, ws: seq<Write>) {
    ws == [] || (Legal(disk, ws[..|ws| - 1]) && Permitted(ApplyAll(disk, ws[..|ws| - 1]), ws[|ws| - 1]))
  }

  lemma LegalOneMore(disk: Disk, ws: seq<Write>, w: Write)
    requires Legal(disk, ws) && Permitted(ApplyAll(disk, ws), w)
    ensures Legal(disk, ws + [w])
  {
    assert (ws + [w])[..|ws|] == ws;
  }

  // ----- crash consistency -----

  predicate CheckpointIntact(f: Files, id: WindowId)
    requires id in f.checkpoints
  {
    var r := f.checkpoints[id];
    && r.windowId == id
    && f.record.Some? && r.provenance == f.record.value.provenance
    && r.SegmentsMatch()
    && (r.Terminal() ==> id in f.raw && f.raw[id] == r.raw)
    && (r.Terminal() && id in f.plan ==> f.plan[id] == r.window)
    && (r.state.Done? ==> id in f.plan)
  }

  /** Every DONE or FAILED checkpoint has its raw text on disk, unchanged, and every
      DONE checkpoint is still planned with the interval it was computed for. */
  predicate Intact(f: Files) {
    forall id :: id in f.checkpoints ==> CheckpointIntact(f, id)
  }

  predicate AttemptsEnded(f: Files) {
    forall id :: id in f.checkpoints ==> f.checkpoints[id].Terminal()
  }

  predicate DiskIntact(disk: Disk) {
    forall j :: j in disk ==> Intact(disk[j])
  }

  /** What a later state of a job must keep of an earlier one. */
  predicate Preserves(f: Files, g: Files) {
    && (f.InState(COMPLETED) ==> g == f)
    && (f.record.Some? ==> g.record.Some? && g.record.value.provenance == f.record.value.provenance)
    && (forall id :: id in f.checkpoints && f.checkpoints[id].Terminal() ==>
                       && id in g.checkpoints && g.checkpoints[id] == f.checkpoints[id]
                       && (id in f.raw ==> id in g.raw && g.raw[id] == f.raw[id]))
    && g.durationMs == f.durationMs && g.initial == f.initial && f.ever <= g.ever
  }

  predicate DiskPreserves(disk: Disk, disk': Disk) {
    forall j :: j in disk ==> j in disk' && Preserves(disk[j], disk'[j])
  }

  lemma ReplaceKeepsIntact(f: Files, w: Write, disk: Disk)
    requires w.job in disk && disk[w.job] == f && !w.NewDirectory? && Permitted(disk, w) && Intact(f)
    ensures Intact(Replace(f, w)) && Preserves(f, Replace(f, w))
  {
    var g := Replace(f, w);
    forall id | id in g.checkpoints
      ensures CheckpointIntact(g, id)
    {
      if id in f.checkpoints {
        assert CheckpointIntact(f, id);
      }
    }
  }

  lemma WriteKeepsIntact(disk: Disk, w: Write)
    requires DiskIntact(disk) && Permitted(disk, w)
    ensures DiskIntact(Apply(disk, w)) && DiskPreserves(disk, Apply(disk, w))
  {
    if !w.NewDirectory? {
      ReplaceKeepsIntact(disk[w.job], w, disk);
    }
  }

  lemma PreservesTransitive(a: Disk, b: Disk, c: Disk)
    requires DiskPreserves(a, b) && DiskPreserves(b, c)
    ensures DiskPreserves(a, c)
  {
    forall j | j in a
      ensures j in c && Preserves(a[j], c[j])
    {
      assert Preserves(a[j], b[j]) && Preserves(b[j], c[j]);
    }
  }

  /** Crash consistency: whatever prefix of the permitted writes reached the disk,
      all evidence is intact, and what an earlier prefix committed is still there. */
  lemma {:induction false} CrashConsistency(disk: Disk, ws: seq<Write>, k: nat)
    requires DiskIntact(disk) && Legal(disk, ws) && k <= |ws|
    ensures DiskIntact(ApplyAll(disk, ws))
    ensures DiskPreserves(ApplyAll(disk, ws[..k]), ApplyAll(disk, ws))
  {
    if k == |ws| {
      assert ws[..k] == ws;
      if ws != [] {
        CrashConsistency(disk, ws[..k - 1], k - 1);
        WriteKeepsIntact(ApplyAll(disk, ws[..k - 1]), ws[k - 1]);
      }
    } else {
      var front := ws[..|ws| - 1];
      assert front[..k] == ws[..k];
      CrashConsistency(disk, front, k);
      WriteKeepsIntact(ApplyAll(disk, front), ws[|ws| - 1]);
      PreservesTransitive(ApplyAll(disk, ws[..k]), ApplyAll(disk, front), ApplyAll(disk, ws));
    }
  }

  // ----- the store itself -----

  /** What save_job accepts: a snapshot of an open and intact job under the same provenance, and
      a plan that keeps its attempts. */
  predicate MaySave(f: Files, snapshot: Snapshot, windows: Option<Plan>) {
    && f.Open() && f.record.value.provenance == snapshot.provenance
    && Intact(f) && AttemptsEnded(f)
    && (windows.Some? ==> PlanKeepsAttempts(f, windows.value))
  }

  /** Unavailable covers I/O errors and MOSS_AUDIO_CHANGED, which can strike any call. */
  datatype StoreError = Unavailable | Mismatch

  /** What save_window_result accepts: a first attempt at a planned window of an open job. */
  predicate MayRecord(f: Files, r: WindowResult) { f.Open() && ResultMatches(f, r) && !f.TerminalAt(r.windowId) }

  class MossSpool {
    /** On a reliable disk no file operation fails. */
    const reliable: bool
    var jobs: Disk
    ghost var log: seq<Write>

    ghost predicate Valid() reads this {
      Legal(map[], log) && jobs == ApplyAll(map[], log)
    }

    constructor (reliable: bool)
      ensures Valid() && jobs == map[] && log == [] && this.reliable == reliable
    {
      this.reliable, jobs, log := reliable, map[], [];
    }

    /** Every state this disk was ever in is intact, and nothing committed was lost since. */
    lemma EveryInstantIntact(k: nat)
      requires Valid() && k <= |log|
      ensures DiskIntact(ApplyAll(map[], log[..k])) && DiskIntact(jobs)
      ensures DiskPreserves(ApplyAll(map[], log[..k]), jobs)
    {
      CrashConsistency(map[], log, k);
      LegalPrefix(map[], log, k);
      CrashConsistency(map[], log[..k], 0);
    }

    /** One atomic replacement. It may raise before or after the file was replaced. */
    method Put(w: Write) returns (ok: bool, ghost landed: bool)
      requires Valid() && Permitted(jobs, w)
      modifies this
      ensures Valid() && (ok ==> landed) && (reliable ==> ok)
      ensures jobs == if landed then Apply(old(jobs), w) else old(jobs)
      ensures log == if landed then old(log) + [w] else old(log)
    {
      var fails: bool, replaced: bool := *, *;
      ok, landed := reliable || !fails, false;
      if ok || replaced {
        ApplyOneMore(map[], log, w);
        LegalOneMore(map[], log, w);
        landed, log := true, log + [w];
        jobs := Apply(jobs, w);
      }
    }

    method LoadJob(job: JobId) returns (r: Result<Snapshot, StoreError>)
      ensures r.Success? ==> job in jobs && jobs[job].record == Some(r.value)
      ensures r.Failure? ==> r.error == Unavailable
      ensures reliable && job in jobs && jobs[job].record.Some? ==> r.Success?
    {
      var fails: bool := *;
      if (reliable || !fails) && job in jobs && jobs[job].record.Some? {
        return Success(jobs[job].record.value);
      }
      return Failure(Unavailable);
    }

    /** Reads all checkpoints back. On an intact disk whose attempts have all ended the
        only failure is I/O: the integrity checks never reject what the store wrote. */
    method LoadWindowResults(job: JobId) returns (r: Result<map<WindowId, WindowResult>, StoreError>)
      ensures r.Success? ==> job in jobs && r.value == jobs[job].checkpoints
      ensures job in jobs && Intact(jobs[job]) && AttemptsEnded(jobs[job]) ==> r.Success? || r.error == Unavailable
      ensures reliable && job in jobs && jobs[job].record.Some? && Intact(jobs[job]) && AttemptsEnded(jobs[job]) ==>
                r.Success?
    {
      var loaded := LoadJob(job);
      if loaded.Failure? {
        return Failure(loaded.error);
      }
      var f := jobs[job];
      var todo := f.checkpoints.Keys;
      var results: map<WindowId, WindowResult> := map[];
      while todo != {}
        invariant todo <= f.checkpoints.Keys
        invariant results.Keys == f.checkpoints.Keys - todo
        invariant forall id :: id in results ==> results[id] == f.checkpoints[id]
        decreases todo
      {
        var id :| id in todo;
        var result := f.checkpoints[id];
        if !ResultReadable(f, id, result) {
          assert !(CheckpointIntact(f, id) && f.checkpoints[id].Terminal());
          return Failure(Mismatch);
        }
        results := results[id := result];
        todo := todo - {id};
      }
      return Success(results);
    }

    /** The checks of one file during a load; the plan is compared for DONE attempts only. */
    static predicate ResultReadable(f: Files, id: WindowId, r: WindowResult) {
      && (r.state.Done? ==> ResultMatches(f, r))
      && f.record.Some? && r.provenance == f.record.value.provenance
      && r.SegmentsMatch()
      && r.windowId == id
      && id in f.raw && f.raw[id] == r.raw
    }

    /** Replaces the plan (if one is given) and then job.json. `count` is how many of
        the two replacements reached the disk. */
    method SaveJob(job: JobId, snapshot: Snapshot, windows: Option<Plan>) returns (ok: bool, ghost count: nat)
      requires Valid()
      modifies this
      ensures Valid()
      ensures count <= (if windows.Some? then 2 else 1) && (ok ==> count == if windows.Some? then 2 else 1)
      ensures count > 0 ==> job in old(jobs) && old(jobs)[job].Open() && old(log) <= log
      ensures count == 0 ==> jobs == old(jobs)
      ensures windows.None? && count == 1 ==> jobs == Apply(old(jobs), PutRecord(job, snapshot))
      ensures windows.Some? && count == 1 ==> jobs == Apply(old(jobs), PutPlan(job, windows.value))
      ensures windows.Some? && count == 2 ==>
                jobs == Apply(Apply(old(jobs), PutPlan(job, windows.value)), PutRecord(job, snapshot))
      ensures reliable && job in old(jobs) && MaySave(old(jobs)[job], snapshot, windows) ==> ok
    {
      ok, count := false, 0;
      var record := LoadJob(job);
      if record.Failure? || record.value.state == COMPLETED || record.value.provenance != snapshot.provenance {
        return;
      }
      var attempts := LoadWindowResults(job);
      if attempts.Failure? {
        return;
      }
      ghost var landed;
      if windows.Some? {
        if !PlanKeepsAttempts(jobs[job], windows.value) {
          return;
        }
        ok, landed := Put(PutPlan(job, windows.value));
        count := if landed then 1 else 0;
        if !ok {
          return;
        }
      }
      ok, landed := Put(PutRecord(job, snapshot));
      count := if landed then count + 1 else count;
    }

    /** Raw text first; only the checkpoint commits the attempt. */
    method SaveWindowResult(job: JobId, r: WindowResult) returns (ok: bool, ghost count: nat)
      requires Valid()
      modifies this
      ensures Valid()
      ensures count <= 2 && (ok ==> count == 2) && old(log) <= log
      ensures count == 0 ==> jobs == old(jobs)
      ensures count == 1 ==> jobs == Apply(old(jobs), PutRaw(job, r.windowId, r.raw))
      ensures count == 2 ==> jobs == Apply(Apply(old(jobs), PutRaw(job, r.windowId, r.raw)), PutCheckpoint(job, r))
      ensures count > 0 ==> job in old(jobs) && MayRecord(old(jobs)[job], r)
      ensures reliable && job in old(jobs) && MayRecord(old(jobs)[job], r) ==> ok
    {
      ok, count := false, 0;
      var record := LoadJob(job);
      if record.Failure? || record.value.state == COMPLETED {
        return;
      }
      if !ResultMatches(jobs[job], r) || jobs[job].TerminalAt(r.windowId) {
        return;
      }
      ghost var landed;
      ok, landed := Put(PutRaw(job, r.windowId, r.raw));
      count := if landed then 1 else 0;
      if !ok {
        return;
      }
      ok, landed := Put(PutCheckpoint(job, r));
      count := if landed then 2 else 1;
    }

    /** save_speaker_state, save_merged_segments and append_event: one file, never on a completed job. */
    method SaveDerived(w: Write) returns (ok: bool, ghost landed: bool)
      requires Valid() && (w.PutSpeakerState? || w.PutMerged? || w.PutEvents?)
      modifies this
      ensures Valid() && (ok ==> landed)
      ensures landed ==> w.job in old(jobs) && old(jobs)[w.job].Open()
      ensures reliable && w.job in old(jobs) && old(jobs)[w.job].Open() ==> ok
      ensures jobs == if landed then Apply(old(jobs), w) else old(jobs)
      ensures log == if landed then old(log) + [w] else old(log)
    {
      ok, landed := false, false;
      var record := LoadJob(w.job);
      if record.Failure? || record.value.state == COMPLETED {
        return;
      }
      ok, landed := Put(w);
    }

    /** The files of a new job; job.json is written last and makes the job exist. */
    method CreateJob(job: JobId, plan: Plan, durationMs: int, provenance: Provenance)
      returns (ok: bool, ghost count: nat)
      requires Valid() && job !in jobs
      modifies this
      ensures Valid()
      ensures count <= 2 && (ok ==> count == 2) && old(log) <= log
      ensures count == 0 ==> jobs == old(jobs)
      ensures count == 1 ==> jobs == Apply(old(jobs), NewDirectory(job, plan, durationMs))
      ensures count == 2 ==> jobs == Apply(Apply(old(jobs), NewDirectory(job, plan, durationMs)),
                                           PutRecord(job, Snapshot(QUEUED, provenance, 0.0, None)))
      ensures reliable ==> ok
    {
      ghost var landed;
      ok, landed := Put(NewDirectory(job, plan, durationMs));
      count := if landed then 1 else 0;
      if !ok {
        return;
      }
      ok, landed := Put(PutRecord(job, Snapshot(QUEUED, provenance, 0.0, None)));
      count := if landed then 2 else 1;
    }
  }

  lemma {:induction false} LegalPrefix(disk: Disk, ws: seq<Write>, k: nat)
    requires Legal(disk, ws) && k <= |ws|
    ensures Legal(disk, ws[..k])
  {
    if k < |ws| {
      LegalPrefix(disk, ws[..|ws| - 1], k);
      assert ws[..|ws| - 1][..k] == ws[..k];
    } else {
      assert ws[..k] == ws;
    }
  }
}

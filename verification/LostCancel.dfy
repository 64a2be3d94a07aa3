/** When a cancel is lost. A job that somebody resumed before its own submit returned is
    cancelled while it runs; submit then installs a new event
    (linux/backend/moss_worker/supervisor.py). */
module LostCancel {
  import opened Sets
  import opened Wrappers
  import opened Windowing
  import opened Spool
  import opened Scheduling

  /** Every failed window that is still planned can be retried. */
  predicate Completable(f: Files) {
    forall id :: id in f.plan && id in f.checkpoints && f.checkpoints[id].state.Failed? ==> CanRetry(f, id)
  }

  /** After the cancel this continuation ends with the job completed. */
  ghost predicate CompletesAfter(actions: seq<Action>, j: JobId, more: seq<Action>) {
    var all := actions + [Action.Cancel(j)] + more;
    Run(all) && j in After(all).jobs && After(all).jobs[j].InState(COMPLETED)
  }

  // ----- a window that cannot be retried stops the job for good -----

  predicate StuckAt(f: Files, id: WindowId) {
    id in f.plan && id in f.checkpoints && f.checkpoints[id].state.Failed? && !CanRetry(f, id)
  }

  predicate JobStuck(disk: Disk, j: JobId, id: WindowId) { j in disk && StuckAt(disk[j], id) }

  lemma StuckStaysPlanned(f: Files, id: WindowId, old': WindowId, newIds: seq<WindowId>, ws: seq<WindowSpec>)
    requires StuckAt(f, id) && old' != id && id in f.ever && |newIds| == |ws| && NewIdentities(f, newIds)
    ensures StuckAt(AfterReplan(f, Replanned(f.plan, old', newIds, ws)), id)
  {
    hide Assign;
    var g := AfterReplan(f, Replanned(f.plan, old', newIds, ws));
    assert CrashIds(g) == CrashIds(f);
    assert id !in Assign(newIds, ws);
  }

  lemma StuckWithMore(f: Files, id: WindowId, r: WindowResult)
    requires StuckAt(f, id) && r.windowId != id
             && (r.windowId in f.checkpoints ==> f.checkpoints[r.windowId] == r || !f.TerminalAt(r.windowId))
    requires forall k :: k in f.checkpoints ==> f.checkpoints[k].Terminal()
    ensures StuckAt(f.(checkpoints := f.checkpoints[r.windowId := r]), id)
  {
    var g := f.(checkpoints := f.checkpoints[r.windowId := r]);
    assert CrashIds(f) <= CrashIds(g);
    SubsetSize(CrashIds(f), CrashIds(g));
  }

  lemma StuckStep(w: World, a: Action, j: JobId, id: WindowId)
    requires Good(w) && Allowed(w, a) && JobStuck(w.jobs, j, id)
    ensures JobStuck(Next(w, a).jobs, j, id)
  {
    hide Good, StuckAt, Next, Allowed, WriteOf, Replace;
    ReplanShape(w, a);
    JobsAfter(w, a);
    if WriteOf(w, a).Some? && WriteOf(w, a).value.job == j {
      StuckWrite(w, a, j, id);
    } else if WriteOf(w, a).Some? {
      ElsewhereApplied(w.jobs, WriteOf(w, a).value, j);
    }
  }

  lemma ElsewhereApplied(disk: Disk, write: Write, j: JobId)
    requires j in disk && write.job != j
    ensures j in Apply(disk, write) && Apply(disk, write)[j] == disk[j]
  {
  }

  lemma GoodFiles(w: World, j: JobId)
    requires Good(w) && j in w.jobs
    ensures Intact(w.jobs[j]) && Scheduled(w.jobs[j])
  {
    hide Intact, Scheduled;
  }

  lemma StuckReplan(w: World, a: Action, j: JobId, id: WindowId)
    requires Allowed(w, a) && a.Replan? && a.job == j && JobStuck(w.jobs, j, id) && Scheduled(w.jobs[j])
    ensures !WriteOf(w, a).value.NewDirectory? && StuckAt(Replace(w.jobs[j], WriteOf(w, a).value), id)
  {
    hide Replanned, CoversRecording, Assign, CrashIds;
    StuckStaysPlanned(w.jobs[j], id, a.id, a.newIds, a.replacements);
  }

  lemma StuckCheckpoint(w: World, a: Action, j: JobId, id: WindowId)
    requires Allowed(w, a) && a.WriteCheckpoint? && a.job == j && JobStuck(w.jobs, j, id) && Scheduled(w.jobs[j])
    ensures !WriteOf(w, a).value.NewDirectory? && StuckAt(Replace(w.jobs[j], WriteOf(w, a).value), id)
  {
    hide CoversRecording, CrashIds, CanRetry;
    StuckWithMore(w.jobs[j], id, a.result);
  }

  lemma StuckWrite(w: World, a: Action, j: JobId, id: WindowId)
    requires Allowed(w, a) && WriteOf(w, a).Some? && WriteOf(w, a).value.job == j
    requires Good(w) && JobStuck(w.jobs, j, id)
    ensures !WriteOf(w, a).value.NewDirectory? && StuckAt(Replace(w.jobs[j], WriteOf(w, a).value), id)
  {
    hide Good, StuckAt, Allowed, Scheduled, Intact;
    ReplanShape(w, a);
    GoodFiles(w, j);
    var f := w.jobs[j];
    var write := WriteOf(w, a).value;
    if write.PutRecord? {
      OtherFiles(f, Replace(f, write), id);
    } else {
      RunnerWrites(w, a);
      if a.CreateDirectory? {
        DirectoryIsNew(w, a);
        assert false;
      } else if a.Replan? {
        StuckReplan(w, a, j, id);
      } else if a.WriteCheckpoint? {
        StuckCheckpoint(w, a, j, id);
      } else {
        if a.WriteDerived? {
          DerivedKinds(w, a);
        }
        OtherFiles(f, Replace(f, write), id);
      }
    }
  }

  lemma DirectoryIsNew(w: World, a: Action)
    requires Allowed(w, a) && a.CreateDirectory?
    ensures a.job !in w.jobs
  {
  }

  lemma DerivedKinds(w: World, a: Action)
    requires Allowed(w, a) && a.WriteDerived?
    ensures a.write.PutSpeakerState? || a.write.PutMerged? || a.write.PutEvents?
  {
  }

  lemma OtherFiles(f: Files, g: Files, id: WindowId)
    requires StuckAt(f, id) && g.plan == f.plan && g.checkpoints == f.checkpoints
    ensures StuckAt(g, id)
  {
    assert CrashIds(g) == CrashIds(f);
  }

  lemma {:induction false} StuckForever(actions: seq<Action>, k: nat, j: JobId, id: WindowId)
    requires Run(actions) && Extends(actions, k) && JobStuck(After(actions[..k]).jobs, j, id)
    ensures JobStuck(After(actions).jobs, j, id)
  {
    hide JobStuck, Good;
    if k < |actions| {
      var n := |actions| - 1;
      var front := actions[..n];
      assert front[..k] == actions[..k];
      StuckForever(front, k, j, id);
      ReachableGood(front);
      StuckStep(After(front), actions[n], j, id);
    } else {
      assert actions[..k] == actions;
    }
  }

  lemma StuckNeverCompletes(actions: seq<Action>, k: nat, j: JobId, id: WindowId)
    requires Run(actions) && Extends(actions, k) && JobStuck(After(actions[..k]).jobs, j, id)
    ensures j in After(actions).jobs && !After(actions).jobs[j].InState(COMPLETED)
  {
    StuckForever(actions, k, j, id);
    ReachableGood(actions);
    var f := After(actions).jobs[j];
    assert !f.DoneAt(id);
  }

  // ----- otherwise the job can still be completed -----

  /** The scheduler works on the job and no cancel is raised. */
  predicate Ready(w: World, j: JobId) {
    w.up && w.active == Some(j) && NonTerminal(w, j) && j in w.cancelEvents && !w.cancelEvents[j]
  }

  function FailedIds(f: Files): set<WindowId> {
    set id | id in f.plan && id in f.checkpoints && f.checkpoints[id].state.Failed?
  }

  function Untried(f: Files): set<WindowId> { set id | id in f.plan && id !in f.checkpoints }

  lemma {:induction false} RetriesBelow(ever: set<WindowId>) returns (n: nat)
    ensures forall k: nat :: k >= n ==> Retry(k) !in ever
  {
    n := 0;
    if ever != {} {
      var id :| id in ever;
      n := RetriesBelow(ever - {id});
      if id.Retry? && id.uuid >= n {
        n := id.uuid + 1;
      }
    }
  }

  lemma FreshIdentities(ever: set<WindowId>, n: nat) returns (ids: seq<WindowId>)
    ensures |ids| == n && Distinct(ids) && forall k :: 0 <= k < n ==> ids[k] !in ever
  {
    var base := RetriesBelow(ever);
    ids := seq(n, i requires 0 <= i < n => Retry(base + i));
  }

  /** What a failed window may be replaced by. */
  lemma RetryExists(f: Files, id: WindowId) returns (ws: seq<WindowSpec>)
    requires Scheduled(f) && id in f.plan && id in f.checkpoints && CanRetry(f, id)
    ensures RetryAllowed(f, id, ws)
  {
    ws := if f.checkpoints[id].Crash() then [f.plan[id]] else RetryWindows(f.plan[id]);
  }

  lemma ReplanFiles(f: Files, id: WindowId, newIds: seq<WindowId>, ws: seq<WindowSpec>)
    requires Scheduled(f) && Completable(f) && id in FailedIds(f) && |newIds| == |ws| && NewIdentities(f, newIds)
    ensures var g := AfterReplan(f, Replanned(f.plan, id, newIds, ws));
            Completable(g) && FailedIds(g) == FailedIds(f) - {id}
  {
    hide Assign, CoversRecording, Outstanding;
    var g := AfterReplan(f, Replanned(f.plan, id, newIds, ws));
    assert CrashIds(g) == CrashIds(f);
    forall i | i in g.plan && i in g.checkpoints
      ensures i in f.plan && i != id && g.plan[i] == f.plan[i]
    {
      assert i in f.ever;
      assert i !in Assign(newIds, ws);
    }
    forall i | i in FailedIds(f) && i != id
      ensures i in g.plan
    {
    }
  }

  /** One failed window is replaced. */
  lemma ReplaceOne(t: seq<Action>, j: JobId, id: WindowId) returns (t': seq<Action>)
    requires Run(t) && Ready(After(t), j) && Completable(After(t).jobs[j]) && id in FailedIds(After(t).jobs[j])
    ensures t <= t' && Run(t') && Ready(After(t'), j) && Completable(After(t').jobs[j])
    ensures FailedIds(After(t').jobs[j]) == FailedIds(After(t).jobs[j]) - {id}
  {
    hide Run, After, Completable, Replanned, RetryAllowed;
    ReachableGood(t);
    var w := After(t);
    var f := w.jobs[j];
    assert CanRetry(f, id) by {
      CanRetryFailed(f, id);
    }
    var ws := RetryExists(f, id);
    var newIds := FreshIdentities(f.ever, |ws|);
    var a := Replan(j, id, newIds, ws);
    ReplanFiles(f, id, newIds, ws);
    OneMore(t, a);
    t' := t + [a];
  }

  lemma CanRetryFailed(f: Files, id: WindowId)
    requires Completable(f) && id in FailedIds(f)
    ensures CanRetry(f, id)
  {
  }

  lemma {:induction false} ReplaceAll(t: seq<Action>, j: JobId) returns (t': seq<Action>)
    requires Run(t) && Ready(After(t), j) && Completable(After(t).jobs[j])
    ensures t <= t' && Run(t') && Ready(After(t'), j) && FailedIds(After(t').jobs[j]) == {}
    decreases |FailedIds(After(t).jobs[j])|
  {
    hide Run, After, Completable, FailedIds;
    t' := t;
    if FailedIds(After(t).jobs[j]) != {} {
      var id :| id in FailedIds(After(t).jobs[j]);
      t' := ReplaceOne(t, j, id);
      t' := ReplaceAll(t', j);
    }
  }

  function DoneResult(f: Files, id: WindowId): WindowResult
    requires id in f.plan && f.record.Some?
  {
    WindowResult(id, f.plan[id], Done, f.record.value.provenance, "", [], None)
  }

  function WithDone(f: Files, id: WindowId): Files
    requires id in f.plan && f.record.Some?
  {
    f.(raw := f.raw[id := ""], checkpoints := f.checkpoints[id := DoneResult(f, id)])
  }

  lemma DoneNext(w: World, j: JobId, id: WindowId)
    requires Ready(w, j) && id in w.jobs[j].plan && id !in w.jobs[j].checkpoints
    ensures var w1 := Next(w, WriteRaw(j, id, ""));
            var checkpoint := WriteCheckpoint(j, DoneResult(w.jobs[j], id));
            && Allowed(w, WriteRaw(j, id, "")) && Allowed(w1, checkpoint)
            && Next(w1, checkpoint) == w.(jobs := w.jobs[j := WithDone(w.jobs[j], id)])
  {
    var w1 := Next(w, WriteRaw(j, id, ""));
    assert w1.jobs == w.jobs[j := w.jobs[j].(raw := w.jobs[j].raw[id := ""])];
  }

  /** One window that was not tried is done. */
  lemma FinishOne(t: seq<Action>, j: JobId, id: WindowId) returns (t': seq<Action>)
    requires Run(t) && Ready(After(t), j) && FailedIds(After(t).jobs[j]) == {} && id in Untried(After(t).jobs[j])
    ensures t <= t' && Run(t') && Ready(After(t'), j) && FailedIds(After(t').jobs[j]) == {}
    ensures Untried(After(t').jobs[j]) == Untried(After(t).jobs[j]) - {id}
  {
    hide Run, After, Next, Allowed;
    var w := After(t);
    DoneNext(w, j, id);
    OneMore(t, WriteRaw(j, id, ""));
    var t1 := t + [WriteRaw(j, id, "")];
    OneMore(t1, WriteCheckpoint(j, DoneResult(w.jobs[j], id)));
    t' := t1 + [WriteCheckpoint(j, DoneResult(w.jobs[j], id))];
    DoneSets(w.jobs[j], id);
  }

  lemma DoneSets(f: Files, id: WindowId)
    requires f.record.Some? && id in Untried(f)
    ensures FailedIds(WithDone(f, id)) == FailedIds(f) && Untried(WithDone(f, id)) == Untried(f) - {id}
  {
  }

  lemma {:induction false} FinishAll(t: seq<Action>, j: JobId) returns (t': seq<Action>)
    requires Run(t) && Ready(After(t), j) && FailedIds(After(t).jobs[j]) == {}
    ensures t <= t' && Run(t') && Ready(After(t'), j) && FailedIds(After(t').jobs[j]) == {}
            && Untried(After(t').jobs[j]) == {}
    decreases |Untried(After(t).jobs[j])|
  {
    hide Run, After, FailedIds, Untried;
    t' := t;
    if Untried(After(t).jobs[j]) != {} {
      var id :| id in Untried(After(t).jobs[j]);
      t' := FinishOne(t, j, id);
      t' := FinishAll(t', j);
    }
  }

  /** All windows are done: the transcript is written and the job completes. */
  lemma CompleteAll(t: seq<Action>, j: JobId) returns (t': seq<Action>)
    requires Run(t) && Ready(After(t), j) && FailedIds(After(t).jobs[j]) == {} && Untried(After(t).jobs[j]) == {}
    ensures t <= t' && Run(t') && j in After(t').jobs && After(t').jobs[j].InState(COMPLETED)
  {
    hide Run, After;
    ReachableGood(t);
    var w := After(t);
    NothingLeft(w.jobs[j]);
    var merged := WriteDerived(j, PutMerged(j, ""));
    OneMore(t, merged);
    var w1 := Next(w, merged);
    assert w1.jobs[j].transcribed && Ready(w1, j);
    OneMore(t + [merged], SetState(j, COMPLETED, None));
    t' := t + [merged] + [SetState(j, COMPLETED, None)];
  }

  lemma NothingLeft(f: Files)
    requires Scheduled(f) && FailedIds(f) == {} && Untried(f) == {}
    ensures f.AllDone()
  {
    hide CoversRecording, Outstanding;
    forall id | id in f.plan
      ensures f.DoneAt(id)
    {
      assert id !in Untried(f) && id !in FailedIds(f);
    }
  }

  /** The cancel is called and submit returns. */
  lemma CancelThenEnqueue(actions: seq<Action>, j: JobId) returns (t: seq<Action>)
    requires Run(actions) && NonTerminal(After(actions), j) && Premature(After(actions), j)
    ensures t == actions + [Action.Cancel(j)] + [Enqueue(j)] && Run(t) && Ready(After(t), j)
    ensures j in After(t).jobs && After(t).jobs[j].plan == After(actions).jobs[j].plan
            && After(t).jobs[j].checkpoints == After(actions).jobs[j].checkpoints
  {
    hide Run, After;
    ReachableGood(actions);
    OneMore(actions, Action.Cancel(j));
    OneMore(actions + [Action.Cancel(j)], Enqueue(j));
    t := actions + [Action.Cancel(j)] + [Enqueue(j)];
  }

  lemma SameCompletable(f: Files, g: Files)
    requires Completable(f) && g.plan == f.plan && g.checkpoints == f.checkpoints
    ensures Completable(g)
  {
    assert CrashIds(g) == CrashIds(f);
  }

  lemma CompletableCompletes(actions: seq<Action>, j: JobId) returns (more: seq<Action>)
    requires Run(actions) && NonTerminal(After(actions), j) && Premature(After(actions), j)
    requires Completable(After(actions).jobs[j])
    ensures CompletesAfter(actions, j, more)
  {
    hide Run, After, Completable, FailedIds, Untried, Ready;
    var t := CancelThenEnqueue(actions, j);
    SameCompletable(After(actions).jobs[j], After(t).jobs[j]);
    var t1 := ReplaceAll(t, j);
    var t2 := FinishAll(t1, j);
    var t3 := CompleteAll(t2, j);
    more := t3[|actions| + 1..];
    assert actions + [Action.Cancel(j)] <= t3;
    assert t3 == actions + [Action.Cancel(j)] + more;
  }

  /** A premature cancel can be undone, the job completing after all, if and only if every
      failed window that is planned at that moment can still be retried. */
  lemma PrematureCancelLostIff(actions: seq<Action>, j: JobId)
    requires Run(actions) && NonTerminal(After(actions), j) && Premature(After(actions), j)
    ensures (exists more :: CompletesAfter(actions, j, more)) <==> Completable(After(actions).jobs[j])
  {
    hide Run, After, Completable;
    if Completable(After(actions).jobs[j]) {
      var more := CompletableCompletes(actions, j);
    } else {
      forall more
        ensures !CompletesAfter(actions, j, more)
      {
        NeverAfter(actions, j, more);
      }
    }
  }

  lemma NeverAfter(actions: seq<Action>, j: JobId, more: seq<Action>)
    requires j in After(actions).jobs && !Completable(After(actions).jobs[j])
    ensures !CompletesAfter(actions, j, more)
  {
    hide Run, After;
    var f := After(actions).jobs[j];
    var id :| id in f.plan && id in f.checkpoints && f.checkpoints[id].state.Failed? && !CanRetry(f, id);
    assert StuckAt(f, id);
    var all := actions + [Action.Cancel(j)] + more;
    assert all[..|actions|] == actions;
    if CompletesAfter(actions, j, more) {
      StuckNeverCompletes(all, |actions|, j, id);
      assert false;
    }
  }
}

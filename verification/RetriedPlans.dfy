/** The plans of a recording after any number of retries: `_run` of
    linux/backend/moss_worker/supervisor.py puts the windows of `plan_retry_windows` in the
    place of a failed one. */
module RetriedPlans {
  import opened Windowing

  function Length(w: WindowSpec): int { w.endMs - w.startMs }

  /** A window starts two minutes before the end of the one before it; unless it is the last,
      it is a whole number of overlaps long, and at least two. */
  predicate ChainAt(ws: seq<WindowSpec>, i: nat)
    requires i < |ws|
  {
    && (i > 0 ==> ws[i].startMs == ws[i - 1].endMs - OVERLAP_MS)
    && (if i > 0 then OVERLAP_MS else 0) < Length(ws[i]) <= 10 * MINUTE_MS
    && (i < |ws| - 1 ==> Length(ws[i]) >= 2 * OVERLAP_MS && Length(ws[i]) % OVERLAP_MS == 0)
  }

  ghost predicate Chain(ws: seq<WindowSpec>) {
    forall i :: 0 <= i < |ws| ==> ChainAt(ws, i)
  }

  // ----- the initial plan -----

  /** Where a window ends that does not reach the end of the recording. */
  lemma EndsWhole(covered: int, start: int, minutes: int, durationMs: int, end: int)
    requires 0 <= covered < durationMs && covered % OVERLAP_MS == 0 && minutes in {8, 10}
    requires start == (if covered == 0 then 0 else covered - OVERLAP_MS)
    requires end == CandidateEnd(start, minutes, Boundary(covered, durationMs)) && end < durationMs
    ensures end % OVERLAP_MS == 0 && (end - start) % OVERLAP_MS == 0 && end - start >= 2 * OVERLAP_MS
  {
    var c, b := covered / 120000, covered / 3600000;
    assert covered == c * 120000;
    assert b * 3600000 <= covered < (b + 1) * 3600000;
    var s := if c == 0 then 0 else c - 1;
    assert start == s * 120000;
    var e := if end == start + minutes * MINUTE_MS then (if minutes == 8 then s + 4 else s + 5) else 30 * (b + 1);
    assert end == e * 120000;
    assert e >= s + 2;
    assert end - start == (e - s) * 120000;
  }

  /** Before the last window the coverage is a whole number of overlaps. */
  lemma {:induction false} CoveredWhole(ws: seq<WindowSpec>, durationMs: int, counter: Counter, i: nat)
    requires Ladder(ws, durationMs, counter) && i < |ws|
    ensures 0 <= Covered(ws, i) && Covered(ws, i) % OVERLAP_MS == 0 && (i > 0 ==> Covered(ws, i) >= OVERLAP_MS)
  {
    assert LadderAt(ws, i, durationMs, counter);
    if i > 0 {
      CoveredWhole(ws, durationMs, counter, i - 1);
      InnerEnds(ws, durationMs, counter, i - 1);
      PlanShape(ws, durationMs, counter, i - 1);
    }
  }

  lemma InnerEnds(ws: seq<WindowSpec>, durationMs: int, counter: Counter, i: nat)
    requires Ladder(ws, durationMs, counter) && i < |ws| - 1
    requires Covered(ws, i) % OVERLAP_MS == 0
    ensures ws[i].endMs % OVERLAP_MS == 0 && Length(ws[i]) % OVERLAP_MS == 0 && Length(ws[i]) >= 2 * OVERLAP_MS
  {
    hide Boundary, CandidateEnd;
    PlanShape(ws, durationMs, counter, i);
    assert LadderAt(ws, i, durationMs, counter) && LadderAt(ws, i + 1, durationMs, counter);
    StartsWhole(ws, durationMs, counter, i);
    EndsWhole(Covered(ws, i), ws[i].startMs, ws[i].windowMinutes, durationMs, ws[i].endMs);
  }

  lemma StartsWhole(ws: seq<WindowSpec>, durationMs: int, counter: Counter, i: nat)
    requires Ladder(ws, durationMs, counter) && i < |ws| && Covered(ws, i) % OVERLAP_MS == 0
    ensures ws[i].startMs == if Covered(ws, i) == 0 then 0 else Covered(ws, i) - OVERLAP_MS
  {
    PlanShape(ws, durationMs, counter, i);
    if i > 0 {
      PlanShape(ws, durationMs, counter, i - 1);
    }
  }

  lemma LadderIsChain(ws: seq<WindowSpec>, durationMs: int, counter: Counter)
    requires Ladder(ws, durationMs, counter)
    ensures Chain(ws)
  {
    forall i | 0 <= i < |ws|
      ensures ChainAt(ws, i)
    {
      LadderChainAt(ws, durationMs, counter, i);
    }
  }

  lemma LadderChainAt(ws: seq<WindowSpec>, durationMs: int, counter: Counter, i: nat)
    requires Ladder(ws, durationMs, counter) && i < |ws|
    ensures ChainAt(ws, i)
  {
    hide Ladder, Chosen;
    PlanShape(ws, durationMs, counter, i);
    CoveredWhole(ws, durationMs, counter, i);
    StartsWhole(ws, durationMs, counter, i);
    if i < |ws| - 1 {
      InnerEnds(ws, durationMs, counter, i);
    }
  }

  // ----- retries -----

  /** The plan with the windows of the next tier in the place of window `i`. */
  function Retried(ws: seq<WindowSpec>, i: nat): seq<WindowSpec>
    requires i < |ws|
  {
    ws[..i] + RetryWindows(ws[i]) + ws[i + 1..]
  }

  lemma RetryShape(w: WindowSpec)
    requires 0 < Length(w) <= 10 * MINUTE_MS
    ensures var rs := RetryWindows(w);
            if Length(w) <= 8 * MINUTE_MS then |rs| == 1 && rs[0].startMs == w.startMs && rs[0].endMs == w.endMs
            else
              && |rs| == 2 && rs[0].startMs == w.startMs && rs[0].endMs == w.startMs + 8 * MINUTE_MS
              && rs[1].startMs == rs[0].endMs - OVERLAP_MS && rs[1].endMs == w.endMs
  {
    if Length(w) > 8 * MINUTE_MS {
      assert |RetryFrom(w, w.startMs + 6 * MINUTE_MS)| == 1;
    }
  }

  lemma RetryKeepsChain(ws: seq<WindowSpec>, i: nat)
    requires Chain(ws) && i < |ws|
    ensures Chain(Retried(ws, i))
  {
    var rs, all := RetryWindows(ws[i]), Retried(ws, i);
    assert ChainAt(ws, i);
    RetryShape(ws[i]);
    forall k | 0 <= k < |all|
      ensures ChainAt(all, k)
    {
      if k < i {
        assert ChainAt(ws, k);
      } else if k >= i + |rs| {
        assert ChainAt(ws, k - |rs| + 1);
      }
    }
  }

  /** One step of the plan: a window is repeated, or goes down a tier. */
  ghost predicate PlanStep(ws: seq<WindowSpec>, ws': seq<WindowSpec>) {
    ws' == ws || exists i :: 0 <= i < |ws| && ws[i].windowMinutes > 8 && ws' == Retried(ws, i)
  }

  /** The plans of a recording from its first one on. */
  ghost predicate PlanHistory(plans: seq<seq<WindowSpec>>, durationMs: int, counter: Counter) {
    && plans != [] && IsPlan(plans[0], durationMs, counter)
    && forall n :: 0 < n < |plans| ==> PlanStep(plans[n - 1], plans[n])
  }

  /** Whatever was retried, every plan of a recording is such a chain. */
  lemma {:induction false} PlansAreChains(plans: seq<seq<WindowSpec>>, durationMs: int, counter: Counter, n: nat)
    requires PlanHistory(plans, durationMs, counter) && n < |plans|
    ensures Chain(plans[n])
  {
    hide Chain, Retried, Ladder;
    if n == 0 {
      LadderIsChain(plans[0], durationMs, counter);
    } else {
      PlansAreChains(plans, durationMs, counter, n - 1);
      assert PlanStep(plans[n - 1], plans[n]);
      if plans[n] != plans[n - 1] {
        var i :| 0 <= i < |plans[n - 1]| && plans[n] == Retried(plans[n - 1], i);
        RetryKeepsChain(plans[n - 1], i);
      }
    }
  }

  // ----- windows that share an instant -----

  /** Every window but the first and the last is longer than its two overlaps. */
  predicate LongInside(ws: seq<WindowSpec>) {
    forall i :: 0 < i < |ws| - 1 ==> Length(ws[i]) > 2 * OVERLAP_MS
  }

  /** Two windows with another one between them that share an instant, if only their border. */
  predicate Meet(ws: seq<WindowSpec>, i: int, k: int) {
    0 <= i < k - 1 < |ws| - 1 && ws[i].endMs >= ws[k].startMs
  }

  lemma {:induction false} EndsAscend(ws: seq<WindowSpec>, i: nat, j: nat)
    requires Chain(ws) && i <= j < |ws|
    ensures ws[i].endMs <= ws[j].endMs
    decreases j
  {
    if i < j {
      EndsAscend(ws, i, j - 1);
      assert ChainAt(ws, j);
    }
  }

  /** Windows that are not neighbours share at most the border of both. */
  lemma NeighboursOnly(ws: seq<WindowSpec>, i: nat, k: nat)
    requires Chain(ws) && i < k - 1 < |ws| - 1
    ensures ws[i].endMs <= ws[k].startMs
    ensures Meet(ws, i, k) ==> ws[i].endMs == ws[k - 2].endMs == ws[k].startMs && Length(ws[k - 1]) == 2 * OVERLAP_MS
  {
    EndsAscend(ws, i, k - 2);
    assert ChainAt(ws, k) && ChainAt(ws, k - 1);
  }

  /** Three windows share an instant if and only if one of them inside the recording is as
      short as its two overlaps. */
  lemma MeetIff(ws: seq<WindowSpec>)
    requires Chain(ws)
    ensures LongInside(ws) <==> forall i, k :: !Meet(ws, i, k)
  {
    if LongInside(ws) {
      forall i, k
        ensures !Meet(ws, i, k)
      {
        if Meet(ws, i, k) {
          NeighboursOnly(ws, i, k);
          assert false;
        }
      }
    } else {
      var j :| 0 < j < |ws| - 1 && Length(ws[j]) <= 2 * OVERLAP_MS;
      assert ChainAt(ws, j) && ChainAt(ws, j + 1);
      assert Meet(ws, j - 1, j + 1);
    }
  }

  /** A ten-minute window inside the recording that goes down a tier leaves such a short one. */
  lemma RetryLeavesShort(ws: seq<WindowSpec>, i: nat)
    requires Chain(ws) && i < |ws| - 1 && Length(ws[i]) > 8 * MINUTE_MS
    ensures !LongInside(Retried(ws, i))
  {
    assert ChainAt(ws, i);
    RetryShape(ws[i]);
    var all := Retried(ws, i);
    assert all[i + 1] == RetryWindows(ws[i])[1];
    assert Length(all[i + 1]) == 2 * OVERLAP_MS;
  }
}

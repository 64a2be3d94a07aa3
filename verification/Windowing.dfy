/** The window ladder of linux/backend/moss_worker/windowing.py: planning a
    recording into overlapping 10- or 8-minute windows, and replacing one failed
    window by windows of the next tier. */
module Windowing {

  const MINUTE_MS: int := 60000
  const LOGICAL_CHUNK_MS: int := 60 * MINUTE_MS
  const OVERLAP_MS: int := 2 * MINUTE_MS
  const MAX_CONTEXT_LEN: int := 16384
  const OUTPUT_RESERVE: int := 5120
  const SAFETY_MARGIN: int := 512

  datatype WindowSpec = WindowSpec(startMs: int, endMs: int, logicalChunkIndex: int, windowMinutes: int)

  datatype PlanError = ContextBudgetExceeded(atMs: int) | RetryExhausted

  datatype PlanResult<+T> = Planned(value: T) | Rejected(error: PlanError)

  /** The tokenizer's count of the expanded input for an audio interval. */
  type Counter = (int, int) -> nat

  function Min(a: int, b: int): int { if a <= b then a else b }

  function Max(a: int, b: int): int { if a >= b then a else b }

  predicate Fits(tokens: nat) { tokens + OUTPUT_RESERVE + SAFETY_MARGIN <= MAX_CONTEXT_LEN }

  function CandidateEnd(start: int, minutes: int, end: int): int { Min(start + minutes * MINUTE_MS, end) }

  /** The tier `minutes` is admissible for a window that starts at `start` and may not pass `end`. */
  predicate Admits(start: int, minutes: int, end: int, counter: Counter) {
    Fits(counter(start, CandidateEnd(start, minutes, end)))
  }

  /** The loop skips a candidate whose clipped end was already rejected; the
      contract is that of the plain search without the skip. */
  method Select(start: int, end: int, logicalIndex: int, candidates: seq<int>, counter: Counter)
    returns (r: PlanResult<WindowSpec>)
    ensures r.Planned? ==> exists k :: 0 <= k < |candidates|
                                       && Admits(start, candidates[k], end, counter)
                                       && r.value
                                         == WindowSpec(start, CandidateEnd(start, candidates[k], end), logicalIndex,
                                                       candidates[k])
                                       && forall j :: 0 <= j < k ==> !Admits(start, candidates[j], end, counter)
    ensures r.Rejected? <==> forall k :: 0 <= k < |candidates| ==> !Admits(start, candidates[k], end, counter)
    ensures r.Rejected? ==> r.error == ContextBudgetExceeded(start)
  {
    var checked := false;
    var checkedEnd := 0;
    for i := 0 to |candidates|
      invariant forall j :: 0 <= j < i ==> !Admits(start, candidates[j], end, counter)
      invariant checked ==> !Fits(counter(start, checkedEnd))
    {
      var candidateEnd := Min(start + candidates[i] * MINUTE_MS, end);
      if checked && candidateEnd == checkedEnd {
        continue;
      }
      checked, checkedEnd := true, candidateEnd;
      if Fits(counter(start, candidateEnd)) {
        return Planned(WindowSpec(start, candidateEnd, logicalIndex, candidates[i]));
      }
    }
    return Rejected(ContextBudgetExceeded(start));
  }

  /** What the ladder (10, 8) chooses: ten minutes whenever that fits, else eight. */
  ghost predicate Chosen(w: WindowSpec, start: int, boundary: int, logicalIndex: int, counter: Counter) {
    && w.startMs == start
    && w.logicalChunkIndex == logicalIndex
    && w.windowMinutes == (if Admits(start, 10, boundary, counter) then 10 else 8)
    && w.endMs == CandidateEnd(start, w.windowMinutes, boundary)
    && Admits(start, w.windowMinutes, boundary, counter)
  }

  /** The end of the coverage that the first `i` windows give. */
  ghost function Covered(ws: seq<WindowSpec>, i: nat): int
    requires i <= |ws|
  {
    if i == 0 then 0 else ws[i - 1].endMs
  }

  ghost function NextStart(covered: int, first: bool): int {
    if first then 0 else Max(0, covered - OVERLAP_MS)
  }

  ghost function Boundary(covered: int, durationMs: int): int {
    Min(durationMs, (covered / LOGICAL_CHUNK_MS + 1) * LOGICAL_CHUNK_MS)
  }

  ghost predicate LadderAt(ws: seq<WindowSpec>, i: nat, durationMs: int, counter: Counter)
    requires i < |ws|
  {
    && Covered(ws, i) < durationMs
    && Chosen(ws[i], NextStart(Covered(ws, i), i == 0), Boundary(Covered(ws, i), durationMs),
              Covered(ws, i) / LOGICAL_CHUNK_MS, counter)
  }

  /** Every window is the ladder's choice after the windows before it. */
  ghost predicate Ladder(ws: seq<WindowSpec>, durationMs: int, counter: Counter) {
    forall i :: 0 <= i < |ws| ==> LadderAt(ws, i, durationMs, counter)
  }

  ghost predicate IsPlan(ws: seq<WindowSpec>, durationMs: int, counter: Counter) {
    Ladder(ws, durationMs, counter) && Covered(ws, |ws|) >= durationMs
  }

  /** Neither tier fits after the windows `ws`, although the recording goes on. */
  ghost predicate Stuck(ws: seq<WindowSpec>, durationMs: int, counter: Counter) {
    var covered := Covered(ws, |ws|);
    && Ladder(ws, durationMs, counter)
    && covered < durationMs
    && !Admits(NextStart(covered, ws == []), 10, Boundary(covered, durationMs), counter)
    && !Admits(NextStart(covered, ws == []), 8, Boundary(covered, durationMs), counter)
  }

  /** A chosen window advances the coverage and stops at the chunk boundary. */
  lemma ChosenAdvances(w: WindowSpec, covered: int, first: bool, durationMs: int, counter: Counter)
    requires 0 <= covered < durationMs && (first ==> covered == 0)
    requires Chosen(w, NextStart(covered, first), Boundary(covered, durationMs), covered / LOGICAL_CHUNK_MS, counter)
    ensures covered < w.endMs <= Boundary(covered, durationMs) <= durationMs
    ensures w.logicalChunkIndex == (w.endMs - 1) / LOGICAL_CHUNK_MS
  {
    var index := covered / LOGICAL_CHUNK_MS;
    assert index * LOGICAL_CHUNK_MS <= covered < (index + 1) * LOGICAL_CHUNK_MS;
  }

  method PlanWindows(durationMs: int, counter: Counter) returns (r: PlanResult<seq<WindowSpec>>)
    ensures r.Planned? ==> IsPlan(r.value, durationMs, counter)
    ensures r.Rejected? ==> exists ws :: Stuck(ws, durationMs, counter)
                                         && r.error == ContextBudgetExceeded(NextStart(Covered(ws, |ws|), ws == []))
  {
    var windows: seq<WindowSpec> := [];
    var coveredUntil := 0;
    while coveredUntil < durationMs
      invariant coveredUntil == Covered(windows, |windows|) >= 0
      invariant Ladder(windows, durationMs, counter)
    {
      var logicalIndex := coveredUntil / LOGICAL_CHUNK_MS;
      var boundary := Min(durationMs, (logicalIndex + 1) * LOGICAL_CHUNK_MS);
      var start := if windows != [] then Max(0, coveredUntil - OVERLAP_MS) else 0;
      var ladder := [10, 8];
      var choice := Select(start, boundary, logicalIndex, ladder, counter);
      if choice.Rejected? {
        assert !Admits(start, ladder[0], boundary, counter) && !Admits(start, ladder[1], boundary, counter);
        assert Stuck(windows, durationMs, counter);
        return Rejected(choice.error);
      }
      assert Admits(start, ladder[0], boundary, counter) ==> choice.value.windowMinutes == 10;
      ChosenAdvances(choice.value, coveredUntil, windows == [], durationMs, counter);
      ghost var before := windows;
      windows := windows + [choice.value];
      forall i | 0 <= i < |windows|
        ensures LadderAt(windows, i, durationMs, counter)
      {
        if i < |before| {
          assert LadderAt(before, i, durationMs, counter);
        }
      }
      coveredUntil := choice.value.endMs;
    }
    return Planned(windows);
  }

  /** Windows with at least two minutes of shared audio, strictly advancing, inside [0, duration). */
  lemma {:induction false} PlanShape(ws: seq<WindowSpec>, durationMs: int, counter: Counter, i: nat)
    requires Ladder(ws, durationMs, counter) && i < |ws|
    ensures 0 <= Covered(ws, i) < ws[i].endMs <= durationMs
    ensures 0 <= ws[i].startMs < ws[i].endMs <= ws[i].startMs + ws[i].windowMinutes * MINUTE_MS
    ensures ws[i].windowMinutes in {8, 10}
    ensures Fits(counter(ws[i].startMs, ws[i].endMs))
    ensures ws[i].logicalChunkIndex == (ws[i].endMs - 1) / LOGICAL_CHUNK_MS
    ensures i == 0 ==> ws[i].startMs == 0
    ensures i > 0 ==> ws[i].startMs == Max(0, ws[i - 1].endMs - OVERLAP_MS)
  {
    if i > 0 {
      PlanShape(ws, durationMs, counter, i - 1);
    }
    assert LadderAt(ws, i, durationMs, counter);
    ChosenAdvances(ws[i], Covered(ws, i), i == 0, durationMs, counter);
  }

  predicate Within(w: WindowSpec, t: int) { w.startMs <= t < w.endMs }

  ghost predicate SomeWithin(ws: seq<WindowSpec>, t: int) {
    exists i :: 0 <= i < |ws| && Within(ws[i], t)
  }

  /** Every instant of the recording lies in some planned window. */
  lemma {:induction false} PlanCovers(ws: seq<WindowSpec>, durationMs: int, counter: Counter, n: nat, t: int)
    requires Ladder(ws, durationMs, counter) && n <= |ws| && 0 <= t < Covered(ws, n)
    ensures SomeWithin(ws, t)
  {
    PlanShape(ws, durationMs, counter, n - 1);
    if t < ws[n - 1].startMs {
      PlanCovers(ws, durationMs, counter, n - 1, t);
    } else {
      assert Within(ws[n - 1], t);
    }
  }

  /** Two ladders agree as far as both go: a plan depends on nothing but the duration and the counter. */
  lemma {:induction false} LadderUnique(a: seq<WindowSpec>, b: seq<WindowSpec>, durationMs: int, counter: Counter,
                                        i: nat)
    requires Ladder(a, durationMs, counter) && Ladder(b, durationMs, counter) && i < |a| && i < |b|
    ensures a[i] == b[i]
  {
    if i > 0 {
      LadderUnique(a, b, durationMs, counter, i - 1);
    }
    assert LadderAt(a, i, durationMs, counter) && LadderAt(b, i, durationMs, counter);
  }

  /** Once stuck, no ladder goes further: the recording has no plan, so rejection is exact. */
  lemma {:induction false} StuckHasNoPlan(ws: seq<WindowSpec>, plan: seq<WindowSpec>, durationMs: int, counter: Counter)
    requires Stuck(ws, durationMs, counter) && Ladder(plan, durationMs, counter)
    ensures |plan| <= |ws| && !IsPlan(plan, durationMs, counter)
  {
    forall i | 0 <= i < |plan| && i < |ws|
      ensures plan[i] == ws[i]
    {
      LadderUnique(ws, plan, durationMs, counter, i);
    }
    assert |plan| > |ws| ==> !LadderAt(plan, |ws|, durationMs, counter);
    if |plan| < |ws| {
      assert LadderAt(ws, |plan|, durationMs, counter);
    }
  }

  /** An eight-minute window inside the interval of the failed one. */
  predicate RetryMember(w: WindowSpec, failed: WindowSpec) {
    && failed.startMs <= w.startMs < w.endMs <= failed.endMs
    && w.endMs <= w.startMs + 8 * MINUTE_MS && w.windowMinutes == 8 && w.logicalChunkIndex == failed.logicalChunkIndex
  }

  /** A replacement of `failed` one tier down: same interval, eight-minute windows only. */
  ghost predicate Replaces(ws: seq<WindowSpec>, failed: WindowSpec) {
    && (forall i :: 0 <= i < |ws| ==> RetryMember(ws[i], failed))
    && (forall t :: Within(failed, t) ==> SomeWithin(ws, t))
    && (failed.startMs < failed.endMs ==> |ws| >= 1)
    && (failed.endMs <= failed.startMs + 10 * MINUTE_MS ==> |ws| <= 2)
  }

  /** The eight-minute windows from `start` to the end of the failed one. */
  function RetryFrom(failed: WindowSpec, start: int): seq<WindowSpec>
    requires start < failed.endMs
    decreases failed.endMs - start
  {
    var w := WindowSpec(start, CandidateEnd(start, 8, failed.endMs), failed.logicalChunkIndex, 8);
    if w.endMs == failed.endMs then [w] else [w] + RetryFrom(failed, w.endMs - OVERLAP_MS)
  }

  function RetryWindows(failed: WindowSpec): seq<WindowSpec> {
    if failed.startMs < failed.endMs then RetryFrom(failed, failed.startMs) else []
  }

  lemma RetryNext(failed: WindowSpec, start: int)
    requires start < failed.endMs
    ensures RetryFrom(failed, start) != []
    ensures RetryFrom(failed, start)[0].startMs == start
            && RetryFrom(failed, start)[0].endMs == CandidateEnd(start, 8, failed.endMs)
  {
  }

  lemma RetryOneMore(ws: seq<WindowSpec>, failed: WindowSpec, start: int)
    requires start < failed.endMs
    ensures var w := WindowSpec(start, CandidateEnd(start, 8, failed.endMs), failed.logicalChunkIndex, 8);
            ws + RetryFrom(failed, start) ==
            if w.endMs == failed.endMs then ws + [w] else ws + [w] + RetryFrom(failed, w.endMs - OVERLAP_MS)
  {
  }

  lemma {:induction false} RetryFromShape(failed: WindowSpec, start: int)
    requires failed.startMs <= start < failed.endMs
    ensures forall i :: 0 <= i < |RetryFrom(failed, start)| ==> RetryMember(RetryFrom(failed, start)[i], failed)
    ensures 1 <= |RetryFrom(failed, start)|
    ensures failed.endMs <= start + 10 * MINUTE_MS ==> |RetryFrom(failed, start)| <= 2
    ensures failed.endMs <= start + 8 * MINUTE_MS ==> |RetryFrom(failed, start)| == 1
    decreases failed.endMs - start
  {
    var w := WindowSpec(start, CandidateEnd(start, 8, failed.endMs), failed.logicalChunkIndex, 8);
    if w.endMs != failed.endMs {
      RetryFromShape(failed, w.endMs - OVERLAP_MS);
    }
  }

  lemma {:induction false} RetryFromCovers(failed: WindowSpec, start: int, t: int)
    requires start <= t < failed.endMs
    ensures SomeWithin(RetryFrom(failed, start), t)
    decreases failed.endMs - start
  {
    var ws := RetryFrom(failed, start);
    if t < ws[0].endMs {
      assert Within(ws[0], t);
    } else {
      RetryFromCovers(failed, ws[0].endMs - OVERLAP_MS, t);
      var i :| 0 <= i < |ws[1..]| && Within(ws[1..][i], t);
      assert Within(ws[i + 1], t);
    }
  }

  /** The eight-minute windows replace the failed one. */
  lemma RetryReplaces(failed: WindowSpec)
    ensures Replaces(RetryWindows(failed), failed)
  {
    hide RetryFrom, SomeWithin;
    if failed.startMs < failed.endMs {
      RetryFromShape(failed, failed.startMs);
      forall t | Within(failed, t)
        ensures SomeWithin(RetryWindows(failed), t)
      {
        RetryFromCovers(failed, failed.startMs, t);
      }
    }
  }

  method PlanRetryWindows(failed: WindowSpec, counter: Counter) returns (r: PlanResult<seq<WindowSpec>>)
    ensures r.Planned? ==> r.value == RetryWindows(failed) && Replaces(r.value, failed) && 8 < failed.windowMinutes
    ensures r.Planned? ==> forall i :: 0 <= i < |r.value| ==> Fits(counter(r.value[i].startMs, r.value[i].endMs))
    ensures r == Rejected(RetryExhausted) <==> failed.windowMinutes <= 8
    ensures r.Rejected? && r.error.ContextBudgetExceeded? ==>
              exists i :: 0 <= i < |RetryWindows(failed)| && RetryWindows(failed)[i].startMs == r.error.atMs
                          && !Fits(counter(RetryWindows(failed)[i].startMs, RetryWindows(failed)[i].endMs))
  {
    var candidates: seq<int> := if 8 < failed.windowMinutes then [8] else [];
    if candidates == [] {
      return Rejected(RetryExhausted);
    }
    hide RetryFrom, Replaces, Admits;
    RetryReplaces(failed);
    var windows: seq<WindowSpec> := [];
    var start := failed.startMs;
    while start < failed.endMs
      invariant candidates == [8] && failed.startMs <= start
      invariant start < failed.endMs ==> RetryWindows(failed) == windows + RetryFrom(failed, start)
      invariant failed.startMs >= failed.endMs ==> windows == []
      invariant failed.startMs < failed.endMs ==> start < failed.endMs
      invariant forall i :: 0 <= i < |windows| ==> Fits(counter(windows[i].startMs, windows[i].endMs))
      decreases failed.endMs - start
    {
      var choice := Select(start, failed.endMs, failed.logicalChunkIndex, candidates, counter);
      if choice.Rejected? {
        assert !Admits(start, candidates[0], failed.endMs, counter);
        RetryNext(failed, start);
        assert RetryWindows(failed)[|windows|] == RetryFrom(failed, start)[0];
        return Rejected(choice.error);
      }
      var window := choice.value;
      assert candidates[0] == 8;
      RetryOneMore(windows, failed, start);
      windows := windows + [window];
      if window.endMs == failed.endMs {
        return Planned(windows);
      }
      start := window.endMs - OVERLAP_MS;
    }
    return Planned(windows);
  }
}

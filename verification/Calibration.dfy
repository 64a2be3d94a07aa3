/** The operating-point search of scripts/ci/rk3588-speech-calibrate.py. Scores are real numbers. */
module Calibration {
  import opened Wrappers
  import opened Sorting

  datatype SampleScore = SampleScore(ownScore: real, topWrongScore: real, secondWrongScore: Option<real>) {
    function GenuineMargin(): real { ownScore - topWrongScore }

    function ImpostorMargin(): Option<real> {
      if secondWrongScore.None? then None else Some(topWrongScore - secondWrongScore.value)
    }
  }

  function Min(a: real, b: real): real { if a <= b then a else b }

  function Max(a: real, b: real): real { if a >= b then a else b }

  // ----- what an operating point does to a sample -----

  predicate FalseReject(s: SampleScore, threshold: real, margin: real) {
    s.ownScore < threshold || s.GenuineMargin() < margin
  }

  predicate FalseAccept(s: SampleScore, threshold: real, margin: real) {
    s.topWrongScore >= threshold && (s.ImpostorMargin().None? || s.ImpostorMargin().value >= margin)
  }

  /** The pair rejects no genuine sample and accepts no impostor. */
  predicate Safe(scores: seq<SampleScore>, threshold: real, margin: real) {
    forall k :: 0 <= k < |scores| ==>
        !FalseReject(scores[k], threshold, margin) && !FalseAccept(scores[k], threshold, margin)
  }

  /** A safe pair accepts every speaker with enough score and lead over everybody else, and
      rejects the best wrong speaker for lack of one or the other. */
  lemma SafeMeans(scores: seq<SampleScore>, threshold: real, margin: real)
    ensures Safe(scores, threshold, margin) <==>
            forall s :: s in scores ==>
              && s.ownScore >= threshold && s.ownScore - s.topWrongScore >= margin
              && (s.topWrongScore < threshold
                  || (s.secondWrongScore.Some? && s.topWrongScore - s.secondWrongScore.value < margin))
  {
  }

  function Count(scores: seq<SampleScore>, bad: SampleScore -> bool): nat {
    if scores == [] then 0 else Count(scores[..|scores| - 1], bad) + if bad(scores[|scores| - 1]) then 1 else 0
  }

  lemma {:induction false} CountZero(scores: seq<SampleScore>, bad: SampleScore -> bool)
    ensures Count(scores, bad) == 0 <==> forall k :: 0 <= k < |scores| ==> !bad(scores[k])
  {
    if scores != [] {
      CountZero(scores[..|scores| - 1], bad);
      assert forall k :: 0 <= k < |scores| - 1 ==> scores[..|scores| - 1][k] == scores[k];
    }
  }

  /** How far the sample is from being misjudged: a genuine side for accepted samples, an
      impostor side for rejected ones. */
  function Buffers(s: SampleScore, threshold: real, margin: real): seq<real> {
    (if FalseReject(s, threshold, margin) then [] else [s.ownScore - threshold, s.GenuineMargin() - margin])
    + if FalseAccept(s, threshold, margin) then []
      else if s.ImpostorMargin().None? then [threshold - s.topWrongScore]
      else [Max(threshold - s.topWrongScore, margin - s.ImpostorMargin().value)]
  }

  function AllBuffers(scores: seq<SampleScore>, threshold: real, margin: real): seq<real> {
    if scores == [] then []
    else AllBuffers(scores[..|scores| - 1], threshold, margin) + Buffers(scores[|scores| - 1], threshold, margin)
  }

  /** The least of some numbers; None stands for minus infinity. */
  function Least(terms: seq<real>): Option<real> {
    if terms == [] then None
    else
      var rest := Least(terms[..|terms| - 1]);
      Some(if rest.None? then terms[|terms| - 1] else Min(rest.value, terms[|terms| - 1]))
  }

  lemma {:induction false} LeastIsLeast(terms: seq<real>)
    ensures Least(terms).Some? <==> terms != []
    ensures Least(terms).Some? ==> Least(terms).value in terms && forall k :: 0 <= k < |terms| ==>
              Least(terms).value <= terms[k]
  {
    if terms != [] {
      LeastIsLeast(terms[..|terms| - 1]);
    }
  }

  function Robustness(scores: seq<SampleScore>, threshold: real, margin: real): Option<real> {
    Least(AllBuffers(scores, threshold, margin))
  }

  method Evaluate(scores: seq<SampleScore>, threshold: real, margin: real)
    returns (falseAccepts: nat, falseRejects: nat, robustness: Option<real>)
    ensures falseAccepts == Count(scores, s => FalseAccept(s, threshold, margin))
    ensures falseRejects == Count(scores, s => FalseReject(s, threshold, margin))
    ensures robustness == Robustness(scores, threshold, margin)
    ensures falseAccepts == 0 && falseRejects == 0 <==> Safe(scores, threshold, margin)
  {
    var accepts, rejects := (s: SampleScore) => FalseAccept(s, threshold, margin),
      (s: SampleScore) => FalseReject(s, threshold, margin);
    falseAccepts, falseRejects := 0, 0;
    var terms: seq<real> := [];
    var i := 0;
    assert scores[..0] == [];
    while i < |scores|
      invariant i <= |scores|
      invariant falseAccepts == Count(scores[..i], accepts)
      invariant falseRejects == Count(scores[..i], rejects)
      invariant terms == AllBuffers(scores[..i], threshold, margin)
    {
      assert scores[..i + 1][..i] == scores[..i];
      var sample := scores[i];
      var genuineGap := sample.GenuineMargin();
      var more: seq<real> := [];
      if sample.ownScore < threshold || genuineGap < margin {
        falseRejects := falseRejects + 1;
      } else {
        more := [sample.ownScore - threshold, genuineGap - margin];
      }
      var impostorGap := sample.ImpostorMargin();
      var impostorPassesMargin := impostorGap.None? || impostorGap.value >= margin;
      if sample.topWrongScore >= threshold && impostorPassesMargin {
        falseAccepts := falseAccepts + 1;
      } else {
        var rejectBuffer := threshold - sample.topWrongScore;
        if impostorGap.Some? {
          rejectBuffer := Max(rejectBuffer, margin - impostorGap.value);
        }
        more := more + [rejectBuffer];
      }
      assert more == Buffers(sample, threshold, margin);
      terms := terms + more;
      i := i + 1;
    }
    assert scores[..|scores|] == scores;
    robustness := Least(terms);
    CountZero(scores, accepts);
    CountZero(scores, rejects);
  }

  // ----- what robustness means -----

  predicate SafeBy(s: SampleScore, threshold: real, margin: real, delta: real) {
    && s.ownScore - threshold >= delta && s.GenuineMargin() - margin >= delta
    && (threshold - s.topWrongScore >= delta
        || (s.ImpostorMargin().Some? && margin - s.ImpostorMargin().value >= delta))
  }

  predicate AllAtLeast(terms: seq<real>, delta: real) { forall k :: 0 <= k < |terms| ==> terms[k] >= delta }

  predicate AllSafeBy(scores: seq<SampleScore>, threshold: real, margin: real, delta: real) {
    forall k :: 0 <= k < |scores| ==> SafeBy(scores[k], threshold, margin, delta)
  }

  lemma SplitAtLeast(a: seq<real>, b: seq<real>, delta: real)
    ensures AllAtLeast(a + b, delta) <==> AllAtLeast(a, delta) && AllAtLeast(b, delta)
  {
    assert forall k :: 0 <= k < |a| ==> (a + b)[k] == a[k];
    assert forall k :: 0 <= k < |b| ==> (a + b)[|a| + k] == b[k];
  }

  lemma BuffersAtLeast(s: SampleScore, threshold: real, margin: real, delta: real)
    requires !FalseReject(s, threshold, margin) && !FalseAccept(s, threshold, margin)
    ensures AllAtLeast(Buffers(s, threshold, margin), delta) <==> SafeBy(s, threshold, margin, delta)
    ensures Buffers(s, threshold, margin) != []
  {
    var more := Buffers(s, threshold, margin);
    assert |more| == 3;
    assert AllAtLeast(more, delta) <==> more[0] >= delta && more[1] >= delta && more[2] >= delta;
  }

  lemma {:induction false} BuffersAll(scores: seq<SampleScore>, threshold: real, margin: real, delta: real)
    requires Safe(scores, threshold, margin)
    ensures AllAtLeast(AllBuffers(scores, threshold, margin), delta) <==> AllSafeBy(scores, threshold, margin, delta)
    ensures scores != [] ==> AllBuffers(scores, threshold, margin) != []
  {
    if scores != [] {
      var n := |scores| - 1;
      var rest := scores[..n];
      BuffersAll(rest, threshold, margin, delta);
      BuffersAtLeast(scores[n], threshold, margin, delta);
      SplitAtLeast(AllBuffers(rest, threshold, margin), Buffers(scores[n], threshold, margin), delta);
      assert scores == rest + [scores[n]];
      assert AllSafeBy(scores, threshold, margin, delta) <==>
             AllSafeBy(rest, threshold, margin, delta) && SafeBy(scores[n], threshold, margin, delta);
    }
  }

  /** Every pair less than `delta` away from (threshold, margin), in both coordinates, is safe. */
  ghost predicate SafeWithin(scores: seq<SampleScore>, threshold: real, margin: real, delta: real) {
    forall t: real, m: real :: -delta < t - threshold < delta && -delta < m - margin < delta ==> Safe(scores, t, m)
  }

  lemma SafeByStays(s: SampleScore, threshold: real, margin: real, delta: real, t: real, m: real)
    requires SafeBy(s, threshold, margin, delta) && -delta < t - threshold < delta && -delta < m - margin < delta
    ensures !FalseReject(s, t, m) && !FalseAccept(s, t, m)
  {
  }

  /** A sample closer than `delta` to being misjudged is misjudged by some pair within `delta`. */
  lemma NotSafeByBreaks(s: SampleScore, threshold: real, margin: real, delta: real) returns (t: real, m: real)
    requires delta > 0.0 && !SafeBy(s, threshold, margin, delta)
    requires !FalseReject(s, threshold, margin) && !FalseAccept(s, threshold, margin)
    ensures -delta < t - threshold < delta && -delta < m - margin < delta
    ensures FalseReject(s, t, m) || FalseAccept(s, t, m)
  {
    if s.ownScore - threshold < delta {
      t, m := threshold + (s.ownScore - threshold + delta) / 2.0, margin;
    } else if s.GenuineMargin() - margin < delta {
      t, m := threshold, margin + (s.GenuineMargin() - margin + delta) / 2.0;
    } else {
      // Half way between the buffers that are too small and delta.
      var a := Max(threshold - s.topWrongScore, 0.0);
      var b := if s.ImpostorMargin().None? then 0.0 else Max(margin - s.ImpostorMargin().value, 0.0);
      t, m := threshold - (a + delta) / 2.0, margin - (b + delta) / 2.0;
    }
  }

  /** The reported robustness of a safe pair is the exact radius of safety: every pair nearer
      than delta is safe if and only if delta is at most the robustness. */
  lemma RobustnessIsRadius(scores: seq<SampleScore>, threshold: real, margin: real, delta: real)
    requires scores != [] && Safe(scores, threshold, margin) && delta > 0.0
    ensures Robustness(scores, threshold, margin).Some?
    ensures SafeWithin(scores, threshold, margin, delta) <==> delta <= Robustness(scores, threshold, margin).value
  {
    var terms := AllBuffers(scores, threshold, margin);
    BuffersAll(scores, threshold, margin, delta);
    LeastIsLeast(terms);
    assert AllAtLeast(terms, delta) <==> delta <= Least(terms).value;
    if AllSafeBy(scores, threshold, margin, delta) {
      forall t: real, m: real | -delta < t - threshold < delta && -delta < m - margin < delta
        ensures Safe(scores, t, m)
      {
        forall k | 0 <= k < |scores|
          ensures !FalseReject(scores[k], t, m) && !FalseAccept(scores[k], t, m)
        {
          SafeByStays(scores[k], threshold, margin, delta, t, m);
        }
      }
    } else {
      var k :| 0 <= k < |scores| && !SafeBy(scores[k], threshold, margin, delta);
      var t, m := NotSafeByBreaks(scores[k], threshold, margin, delta);
      assert !Safe(scores, t, m);
    }
  }

  // ----- the grid -----

  function Clip(v: real): real { Max(0.0, Min(1.0, v)) }

  predicate RealLe(a: real, b: real) { a <= b }

  /** A Python set as a list without repetitions. */
  function Distinct(values: seq<real>): (r: seq<real>)
    ensures forall x :: x in r <==> x in values
  {
    if values == [] then []
    else
      var rest := Distinct(values[..|values| - 1]);
      if values[|values| - 1] in rest then rest else rest + [values[|values| - 1]]
  }

  function Clipped(values: seq<real>): seq<real> {
    Sort(Distinct(seq(|values|, k requires 0 <= k < |values| => Clip(values[k])) + [0.0, 1.0]), RealLe)
  }

  function Mids(sorted: seq<real>): seq<real> {
    seq(if |sorted| < 2 then 0 else |sorted| - 1, k requires 0 <= k < |sorted| - 1 => (sorted[k] + sorted[k + 1]) / 2.0)
  }

  function CandidateValues(values: seq<real>): seq<real> {
    Sort(Distinct(Clipped(values) + Mids(Clipped(values))), RealLe)
  }

  /** Clipped to the unit interval, a value or one of the interval's ends. */
  ghost predicate IsClipped(values: seq<real>, x: real) {
    x == 0.0 || x == 1.0 || exists k :: 0 <= k < |values| && x == Clip(values[k])
  }

  lemma ClippedMembers(values: seq<real>)
    ensures forall x :: x in Clipped(values) <==> IsClipped(values, x)
    ensures forall x :: x in Clipped(values) ==> 0.0 <= x <= 1.0
    ensures Sorted(Clipped(values), RealLe) && NoDuplicates(Clipped(values))
  {
    hide Clip;
    var clips := seq(|values|, k requires 0 <= k < |values| => Clip(values[k]));
    var all := clips + [0.0, 1.0];
    assert all[|values|] == 0.0 && all[|values| + 1] == 1.0;
    forall x
      ensures x in Clipped(values) <==> IsClipped(values, x)
    {
      SortMembers(Distinct(all), RealLe, x);
      if k :| 0 <= k < |values| && x == Clip(values[k]) {
        assert all[k] == x;
      }
      if x in all {
        var k :| 0 <= k < |all| && all[k] == x;
        assert k < |values| ==> x == Clip(values[k]);
      }
    }
    forall k | 0 <= k < |values|
      ensures 0.0 <= Clip(values[k]) <= 1.0
    {
      ClipUnit(values[k]);
    }
    SortSorted(Distinct(all), RealLe);
    DistinctIsSet(all);
    SortNoDuplicates(Distinct(all), RealLe);
  }

  lemma ClipUnit(v: real)
    ensures 0.0 <= Clip(v) <= 1.0
  {
  }

  lemma {:induction false} DistinctIsSet(values: seq<real>)
    ensures NoDuplicates(Distinct(values))
  {
    if values != [] {
      DistinctIsSet(values[..|values| - 1]);
    }
  }

  /** Two members of a list with none between them. */
  ghost predicate Adjacent(list: seq<real>, a: real, b: real) {
    a in list && b in list && a < b && forall x :: x in list ==> x <= a || b <= x
  }

  /** In a sorted list without repetitions these are the pairs that stand side by side. */
  lemma AdjacentIff(list: seq<real>, a: real, b: real)
    requires Sorted(list, RealLe) && NoDuplicates(list)
    ensures Adjacent(list, a, b) <==> exists k :: 0 <= k < |list| - 1 && list[k] == a && list[k + 1] == b
  {
    if Adjacent(list, a, b) {
      var i :| 0 <= i < |list| && list[i] == a;
      var j :| 0 <= j < |list| && list[j] == b;
      assert RealLe(list[if i < j then i else j], list[if i < j then j else i]) || i == j;
      var next := list[i + 1];
      assert next in list && RealLe(a, next) && next != a;
      assert i + 1 < j ==> RealLe(next, b);
    }
    if k :| 0 <= k < |list| - 1 && list[k] == a && list[k + 1] == b {
      assert RealLe(a, b);
      forall x | x in list
        ensures x <= a || b <= x
      {
        var i :| 0 <= i < |list| && list[i] == x;
        assert i < k ==> RealLe(x, a);
        assert i > k + 1 ==> RealLe(b, x);
      }
    }
  }

  lemma MidsMembers(list: seq<real>, x: real)
    requires Sorted(list, RealLe) && NoDuplicates(list)
    ensures x in Mids(list) <==> exists a, b :: Adjacent(list, a, b) && x == (a + b) / 2.0
  {
    hide Adjacent;
    var mids := Mids(list);
    if x in mids {
      var k :| 0 <= k < |mids| && mids[k] == x;
      AdjacentIff(list, list[k], list[k + 1]);
    }
    if a, b :| Adjacent(list, a, b) && x == (a + b) / 2.0 {
      AdjacentIff(list, a, b);
      var k :| 0 <= k < |list| - 1 && list[k] == a && list[k + 1] == b;
      assert mids[k] == x;
    }
  }

  /** The candidates are exactly the clipped values and the middles of neighbours among them. */
  lemma CandidateIff(values: seq<real>, x: real)
    ensures x in CandidateValues(values) <==>
              x in Clipped(values) || exists a, b :: Adjacent(Clipped(values), a, b) && x == (a + b) / 2.0
  {
    hide Clipped, Adjacent, Mids;
    var clipped := Clipped(values);
    ClippedMembers(values);
    SortMembers(Distinct(clipped + Mids(clipped)), RealLe, x);
    MidsMembers(clipped, x);
  }

  lemma CandidateMembers(values: seq<real>)
    ensures forall x :: x in Clipped(values) ==> x in CandidateValues(values)
    ensures forall x :: x in CandidateValues(values) ==> 0.0 <= x <= 1.0
  {
    hide Clipped, CandidateValues;
    ClippedMembers(values);
    forall x
      ensures x in Clipped(values) ==> x in CandidateValues(values)
      ensures x in CandidateValues(values) ==> 0.0 <= x <= 1.0
    {
      CandidateIff(values, x);
    }
  }

  /** The smallest member of `list` that is at least `t`. */
  lemma {:induction false} LeastAbove(list: seq<real>, t: real) returns (r: real)
    requires exists k :: 0 <= k < |list| && list[k] >= t
    ensures r in list && r >= t && forall x :: x in list && x >= t ==> r <= x
  {
    var n := |list| - 1;
    var rest := list[..n];
    assert list == rest + [list[n]];
    if exists k :: 0 <= k < |rest| && rest[k] >= t {
      r := LeastAbove(rest, t);
      if list[n] >= t && list[n] < r {
        r := list[n];
      }
    } else {
      assert forall k :: 0 <= k < n ==> rest[k] == list[k];
      r := list[n];
    }
  }

  /** Raising a cut to the next clipped value keeps every value that passed it. */
  lemma RaiseCut(values: seq<real>, t: real) returns (r: real)
    requires 0.0 <= t <= 1.0
    ensures t <= r && r in CandidateValues(values)
    ensures forall k :: 0 <= k < |values| && values[k] >= t ==> values[k] >= r
  {
    hide Clipped, CandidateValues;
    ClippedMembers(values);
    CandidateMembers(values);
    var list := Clipped(values);
    assert IsClipped(values, 1.0);
    var k :| 0 <= k < |list| && list[k] == 1.0;
    r := LeastAbove(list, t);
    forall k | 0 <= k < |values| && values[k] >= t
      ensures values[k] >= r
    {
      assert IsClipped(values, Clip(values[k]));
      assert Clip(values[k]) >= t;
    }
  }

  /** The greatest member of `list` that is at most `t`. */
  lemma {:induction false} GreatestBelow(list: seq<real>, t: real) returns (r: real)
    requires exists k :: 0 <= k < |list| && list[k] <= t
    ensures r in list && r <= t && forall x :: x in list && x <= t ==> x <= r
  {
    var n := |list| - 1;
    var rest := list[..n];
    assert list == rest + [list[n]];
    if exists k :: 0 <= k < |rest| && rest[k] <= t {
      r := GreatestBelow(rest, t);
      if r < list[n] <= t {
        r := list[n];
      }
    } else {
      assert forall k :: 0 <= k < n ==> rest[k] == list[k];
      r := list[n];
    }
  }

  /** The neighbours between which a point of the unit interval lies. */
  lemma Neighbours(list: seq<real>, t: real) returns (a: real, b: real)
    requires 0.0 in list && 1.0 in list && 0.0 <= t <= 1.0 && t !in list
    ensures Adjacent(list, a, b) && a < t < b
  {
    var i :| 0 <= i < |list| && list[i] == 0.0;
    var k :| 0 <= k < |list| && list[k] == 1.0;
    a := GreatestBelow(list, t);
    b := LeastAbove(list, t);
  }

  /** The candidate nearest to a point, or the middle around it, keeps two thirds of the
      distance by which values lie above or below that point. */
  lemma NearCandidate(values: seq<real>, t: real, delta: real) returns (u: real)
    requires 0.0 <= t <= 1.0 && delta > 0.0
    ensures u in CandidateValues(values)
    ensures forall k :: 0 <= k < |values| && values[k] - t >= delta ==> 3.0 * (values[k] - u) >= 2.0 * delta
    ensures forall k :: 0 <= k < |values| && t - values[k] >= delta ==> 3.0 * (u - values[k]) >= 2.0 * delta
  {
    hide Clipped, CandidateValues, Adjacent;
    var list := Clipped(values);
    ClippedMembers(values);
    CandidateMembers(values);
    if t in list {
      u := t;
    } else {
      var a, b := Neighbours(list, t);
      u := BetweenNeighbours(values, a, b, t, delta);
    }
  }

  /** Values above a point between two neighbours lie above both, and values below it below both. */
  lemma BetweenNeighbours(values: seq<real>, a: real, b: real, t: real, delta: real) returns (u: real)
    requires Adjacent(Clipped(values), a, b) && a < t < b && delta > 0.0
    ensures u in CandidateValues(values)
    ensures forall k :: 0 <= k < |values| && values[k] - t >= delta ==> 3.0 * (values[k] - u) >= 2.0 * delta
    ensures forall k :: 0 <= k < |values| && t - values[k] >= delta ==> 3.0 * (u - values[k]) >= 2.0 * delta
  {
    hide Clipped, CandidateValues;
    ClippedMembers(values);
    CandidateIff(values, a);
    CandidateIff(values, b);
    var middle := (a + b) / 2.0;
    CandidateIff(values, middle);
    u := if 3.0 * (b - a) > 4.0 * delta then middle
    else if 4.0 * (t - a) <= b - a then a
    else if 4.0 * (b - t) <= b - a then b
    else middle;
    forall k | 0 <= k < |values|
      ensures values[k] > t ==> values[k] >= b
      ensures values[k] < t ==> values[k] <= a
    {
      assert IsClipped(values, Clip(values[k]));
    }
  }

  // ----- the search -----

  function OwnScores(scores: seq<SampleScore>): seq<real> {
    seq(|scores|, k requires 0 <= k < |scores| => scores[k].ownScore)
  }

  function WrongScores(scores: seq<SampleScore>): seq<real> {
    seq(|scores|, k requires 0 <= k < |scores| => scores[k].topWrongScore)
  }

  function GenuineMargins(scores: seq<SampleScore>): seq<real> {
    seq(|scores|, k requires 0 <= k < |scores| => scores[k].GenuineMargin())
  }

  function ImpostorMargins(scores: seq<SampleScore>): seq<real> {
    if scores == [] then []
    else
      var gap := scores[|scores| - 1].ImpostorMargin();
      ImpostorMargins(scores[..|scores| - 1]) + if gap.None? then [] else [gap.value]
  }

  function Thresholds(scores: seq<SampleScore>): seq<real> { CandidateValues(OwnScores(scores) + WrongScores(scores)) }

  function Margins(scores: seq<SampleScore>): seq<real> {
    CandidateValues(GenuineMargins(scores) + ImpostorMargins(scores))
  }

  /** The finite grid is complete: if any pair in the unit square is safe, a grid pair is. */
  lemma GridIsComplete(scores: seq<SampleScore>, threshold: real, margin: real) returns (t: real, m: real)
    requires 0.0 <= threshold <= 1.0 && 0.0 <= margin <= 1.0 && Safe(scores, threshold, margin)
    ensures t in Thresholds(scores) && m in Margins(scores) && Safe(scores, t, m)
  {
    hide CandidateValues, ImpostorMargins;
    t := RaiseCut(OwnScores(scores) + WrongScores(scores), threshold);
    m := RaiseCut(GenuineMargins(scores) + ImpostorMargins(scores), margin);
    forall k | 0 <= k < |scores|
      ensures !FalseReject(scores[k], t, m) && !FalseAccept(scores[k], t, m)
    {
      assert (OwnScores(scores) + WrongScores(scores))[k] == scores[k].ownScore;
      assert (GenuineMargins(scores) + ImpostorMargins(scores))[k] == scores[k].GenuineMargin();
    }
  }

  datatype Point = Point(robustness: real, threshold: real, margin: real)

  /** The order of Python tuples. */
  predicate PointLe(a: Point, b: Point) {
    || a.robustness < b.robustness
    || (a.robustness == b.robustness
        && (a.threshold < b.threshold || (a.threshold == b.threshold && a.margin <= b.margin)))
  }

  /** A total order that ranks robustness first and leaves no ties. */
  lemma PointLeOrder(a: Point, b: Point, c: Point)
    ensures PointLe(a, b) || PointLe(b, a)
    ensures PointLe(a, b) && PointLe(b, a) ==> a == b
    ensures PointLe(a, b) && PointLe(b, c) ==> PointLe(a, c)
    ensures PointLe(a, b) ==>
              a.robustness <= b.robustness && (a.robustness == b.robustness ==> a.threshold <= b.threshold)
  {
  }

  predicate OnGrid(scores: seq<SampleScore>, p: Point) {
    p.threshold in Thresholds(scores) && p.margin in Margins(scores)
  }

  predicate IsPoint(scores: seq<SampleScore>, p: Point) {
    Safe(scores, p.threshold, p.margin) && Robustness(scores, p.threshold, p.margin) == Some(p.robustness)
  }

  /** The safe pairs of one threshold with some margins. */
  method ScanMargins(scores: seq<SampleScore>, threshold: real, margins: seq<real>) returns (found: seq<Point>)
    requires scores != []
    ensures forall p :: p in found <==> p.threshold == threshold && p.margin in margins && IsPoint(scores, p)
  {
    hide Safe, Robustness, Count;
    found := [];
    var i := 0;
    while i < |margins|
      invariant i <= |margins|
      invariant forall p :: p in found <==> p.threshold == threshold && p.margin in margins[..i] && IsPoint(scores, p)
    {
      assert margins[..i + 1] == margins[..i] + [margins[i]];
      var falseAccepts, falseRejects, robustness := Evaluate(scores, threshold, margins[i]);
      if falseAccepts == 0 && falseRejects == 0 {
        RobustnessDefined(scores, threshold, margins[i]);
        found := found + [Point(robustness.value, threshold, margins[i])];
      }
      i := i + 1;
    }
    assert margins[..|margins|] == margins;
  }

  lemma RobustnessDefined(scores: seq<SampleScore>, threshold: real, margin: real)
    requires scores != [] && Safe(scores, threshold, margin)
    ensures Robustness(scores, threshold, margin).Some?
  {
    RobustnessIsRadius(scores, threshold, margin, 1.0);
  }

  /** The loop over the thresholds: exactly the safe pairs of the grid. */
  method ScanThresholds(scores: seq<SampleScore>) returns (safe: seq<Point>)
    requires scores != []
    ensures forall p :: p in safe <==> OnGrid(scores, p) && IsPoint(scores, p)
  {
    hide IsPoint, Thresholds, Margins;
    var thresholds, margins := Thresholds(scores), Margins(scores);
    safe := [];
    var i := 0;
    while i < |thresholds|
      invariant i <= |thresholds|
      invariant forall p :: p in safe <==> p.threshold in thresholds[..i] && p.margin in margins && IsPoint(scores, p)
    {
      assert thresholds[..i + 1] == thresholds[..i] + [thresholds[i]];
      var found := ScanMargins(scores, thresholds[i], margins);
      safe := safe + found;
      i := i + 1;
    }
    assert thresholds[..|thresholds|] == thresholds;
  }

  /** `max` with a key: the greatest point. */
  method Greatest(points: seq<Point>) returns (best: Point)
    requires points != []
    ensures best in points && forall p :: p in points ==> PointLe(p, best)
  {
    best := points[0];
    var i := 1;
    while i < |points|
      invariant 1 <= i <= |points| && best in points
      invariant forall k :: 0 <= k < i ==> PointLe(points[k], best)
    {
      if !PointLe(points[i], best) {
        best := points[i];
      }
      i := i + 1;
    }
  }

  /** Two thirds of any distance by which the samples are safe can be had on the grid. */
  lemma GridKeepsTwoThirds(scores: seq<SampleScore>, threshold: real, margin: real, delta: real)
    returns (t: real, m: real)
    requires 0.0 <= threshold <= 1.0 && 0.0 <= margin <= 1.0 && delta > 0.0
    requires AllSafeBy(scores, threshold, margin, delta)
    ensures t in Thresholds(scores) && m in Margins(scores)
    ensures AllSafeBy(scores, t, m, 2.0 * delta / 3.0)
  {
    hide CandidateValues, ImpostorMargins;
    var cuts, gaps := OwnScores(scores) + WrongScores(scores), GenuineMargins(scores) + ImpostorMargins(scores);
    t := NearCandidate(cuts, threshold, delta);
    m := NearCandidate(gaps, margin, delta);
    forall k | 0 <= k < |scores|
      ensures SafeBy(scores[k], t, m, 2.0 * delta / 3.0)
    {
      assert cuts[k] == scores[k].ownScore && cuts[|scores| + k] == scores[k].topWrongScore;
      assert gaps[k] == scores[k].GenuineMargin();
      if scores[k].ImpostorMargin().Some? {
        var i := ImpostorAt(scores, k);
        assert gaps[|scores| + i] == scores[k].ImpostorMargin().value;
      }
    }
  }

  lemma {:induction false} ImpostorAt(scores: seq<SampleScore>, k: nat) returns (i: nat)
    requires k < |scores| && scores[k].ImpostorMargin().Some?
    ensures i < |ImpostorMargins(scores)| && ImpostorMargins(scores)[i] == scores[k].ImpostorMargin().value
  {
    var n := |scores| - 1;
    if k < n {
      i := ImpostorAt(scores[..n], k);
    } else {
      i := |ImpostorMargins(scores[..n])|;
    }
  }

  /** Robustness is at least `delta` exactly if every sample is safe by `delta`. */
  lemma RobustnessAtLeast(scores: seq<SampleScore>, p: Point, delta: real)
    requires scores != [] && IsPoint(scores, p)
    ensures p.robustness >= delta <==> AllSafeBy(scores, p.threshold, p.margin, delta)
    ensures p.robustness >= 0.0
  {
    var terms := AllBuffers(scores, p.threshold, p.margin);
    BuffersAll(scores, p.threshold, p.margin, delta);
    BuffersAll(scores, p.threshold, p.margin, 0.0);
    LeastIsLeast(terms);
  }

  /** Some point of the grid is at least two thirds as robust as any safe pair at all in the
      unit square. */
  lemma GridNearOptimal(scores: seq<SampleScore>, p: Point) returns (q: Point)
    requires scores != [] && IsPoint(scores, p) && 0.0 <= p.threshold <= 1.0 && 0.0 <= p.margin <= 1.0
    ensures OnGrid(scores, q) && IsPoint(scores, q) && 3.0 * q.robustness >= 2.0 * p.robustness
  {
    hide Robustness, Thresholds, Margins;
    RobustnessAtLeast(scores, p, p.robustness);
    if p.robustness > 0.0 {
      var t, m := GridKeepsTwoThirds(scores, p.threshold, p.margin, p.robustness);
      SafeByIsSafe(scores, t, m, 2.0 * p.robustness / 3.0);
      q := PointOf(scores, t, m);
      RobustnessAtLeast(scores, q, 2.0 * p.robustness / 3.0);
    } else {
      var t, m := GridIsComplete(scores, p.threshold, p.margin);
      q := PointOf(scores, t, m);
      RobustnessAtLeast(scores, q, 0.0);
    }
  }

  lemma SafeByIsSafe(scores: seq<SampleScore>, threshold: real, margin: real, delta: real)
    requires delta > 0.0 && AllSafeBy(scores, threshold, margin, delta)
    ensures Safe(scores, threshold, margin)
  {
    forall k | 0 <= k < |scores|
      ensures !FalseReject(scores[k], threshold, margin) && !FalseAccept(scores[k], threshold, margin)
    {
      assert SafeBy(scores[k], threshold, margin, delta);
    }
  }

  datatype CalibrationError = NoSamples | Inseparable

  /** The search fails only when no pair at all in the unit square separates the samples, or
      there are none. Otherwise it returns a safe grid pair that no safe grid pair beats in
      robustness, then threshold, then margin. */
  method ChooseCalibration(scores: seq<SampleScore>) returns (r: Result<Point, CalibrationError>)
    ensures r.Failure? <==>
            scores == [] || forall t: real, m: real :: 0.0 <= t <= 1.0 && 0.0 <= m <= 1.0 ==> !Safe(scores, t, m)
    ensures r == Failure(NoSamples) <==> scores == []
    ensures r.Success? ==> IsPoint(scores, r.value) && 0.0 <= r.value.threshold <= 1.0 && 0.0 <= r.value.margin <= 1.0
    ensures r.Success? ==> r.value.threshold in Thresholds(scores) && r.value.margin in Margins(scores)
    ensures r.Success? ==>
              forall p: Point :: OnGrid(scores, p) && IsPoint(scores, p) ==> PointLe(p, r.value)
    ensures r.Success? ==>
              forall p: Point :: IsPoint(scores, p) && 0.0 <= p.threshold <= 1.0 && 0.0 <= p.margin <= 1.0 ==>
                3.0 * r.value.robustness >= 2.0 * p.robustness
  {
    hide Safe, Robustness, OnGrid, Thresholds, Margins, IsPoint, PointLe;
    if scores == [] {
      return Failure(NoSamples);
    }
    var safe := ScanThresholds(scores);
    if safe == [] {
      NoSafePair(scores);
      return Failure(Inseparable);
    }
    var best := Greatest(safe);
    InUnitSquare(scores, best);
    NearOptimal(scores, best);
    return Success(best);
  }

  /** What no grid point beats is at least two thirds as robust as any pair of the unit square. */
  lemma NearOptimal(scores: seq<SampleScore>, best: Point)
    requires scores != [] && forall p :: OnGrid(scores, p) && IsPoint(scores, p) ==> PointLe(p, best)
    ensures forall p: Point :: IsPoint(scores, p) && 0.0 <= p.threshold <= 1.0 && 0.0 <= p.margin <= 1.0 ==>
              3.0 * best.robustness >= 2.0 * p.robustness
  {
    hide IsPoint, OnGrid;
    forall p: Point | IsPoint(scores, p) && 0.0 <= p.threshold <= 1.0 && 0.0 <= p.margin <= 1.0
      ensures 3.0 * best.robustness >= 2.0 * p.robustness
    {
      var q := GridNearOptimal(scores, p);
    }
  }

  lemma PointOf(scores: seq<SampleScore>, threshold: real, margin: real) returns (p: Point)
    requires scores != [] && Safe(scores, threshold, margin)
    ensures p.threshold == threshold && p.margin == margin && IsPoint(scores, p)
  {
    RobustnessDefined(scores, threshold, margin);
    p := Point(Robustness(scores, threshold, margin).value, threshold, margin);
  }

  lemma NoSafePair(scores: seq<SampleScore>)
    requires scores != []
    requires forall p :: OnGrid(scores, p) ==> !IsPoint(scores, p)
    ensures forall t: real, m: real :: 0.0 <= t <= 1.0 && 0.0 <= m <= 1.0 ==> !Safe(scores, t, m)
  {
    hide Safe, Robustness, Thresholds, Margins, IsPoint;
    forall t: real, m: real | 0.0 <= t <= 1.0 && 0.0 <= m <= 1.0
      ensures !Safe(scores, t, m)
    {
      if Safe(scores, t, m) {
        var u, v := GridIsComplete(scores, t, m);
        var p := PointOf(scores, u, v);
        assert false;
      }
    }
  }

  lemma InUnitSquare(scores: seq<SampleScore>, p: Point)
    requires OnGrid(scores, p) && IsPoint(scores, p)
    ensures p.threshold in Thresholds(scores) && p.margin in Margins(scores)
    ensures 0.0 <= p.threshold <= 1.0 && 0.0 <= p.margin <= 1.0 && Safe(scores, p.threshold, p.margin)
  {
    hide CandidateValues;
    CandidateMembers(OwnScores(scores) + WrongScores(scores));
    CandidateMembers(GenuineMargins(scores) + ImpostorMargins(scores));
  }

  /** The two thirds are not to be bettered: of two samples the grid keeps exactly that share of
      the distance by which some pair off the grid is safe. */
  lemma TwoThirdsIsTight() returns (scores: seq<SampleScore>, p: Point)
    ensures scores != [] && IsPoint(scores, p) && 0.0 <= p.threshold <= 1.0 && 0.0 <= p.margin <= 1.0
    ensures forall q :: OnGrid(scores, q) && IsPoint(scores, q) ==> 3.0 * q.robustness <= 2.0 * p.robustness
  {
    hide IsPoint, Thresholds, Margins;
    var a, b := SampleScore(0.7, 0.4, None), SampleScore(1.0, 0.5, Some(0.5));
    scores := [a, b];
    assert AllSafeBy(scores, 0.55, 0.15, 0.15);
    SafeByIsSafe(scores, 0.55, 0.15, 0.15);
    p := PointOf(scores, 0.55, 0.15);
    RobustnessAtLeast(scores, p, 0.15);
    forall q | OnGrid(scores, q) && IsPoint(scores, q)
      ensures 3.0 * q.robustness <= 2.0 * p.robustness
    {
      RobustnessAtLeast(scores, q, q.robustness);
      assert SafeBy(scores[0], q.threshold, q.margin, q.robustness);
      NoneBetween(a, b, q.threshold);
    }
  }

  lemma NoneBetween(a: SampleScore, b: SampleScore, t: real)
    requires a == SampleScore(0.7, 0.4, None) && b == SampleScore(1.0, 0.5, Some(0.5))
    requires t in Thresholds([a, b])
    ensures t <= 0.5 || t >= 0.6
  {
    hide Clipped, CandidateValues;
    var values := OwnScores([a, b]) + WrongScores([a, b]);
    assert values == [0.7, 1.0, 0.4, 0.5];
    ClippedMembers(values);
    CandidateIff(values, t);
    assert Clip(values[0]) == 0.7 && Clip(values[3]) == 0.5;
    assert IsClipped(values, 0.7) && IsClipped(values, 0.5);
  }
}

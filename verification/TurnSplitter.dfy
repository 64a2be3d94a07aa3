/** linux/backend/speech_worker/speaker_turn_splitter.py: cutting one utterance into speaker
    turns. Embeddings and their cosine are functions of the caller; `embed(a, b)` stands for
    the embedding of the utterance's audio from `a` to `b` milliseconds. */
module TurnSplitter {
  import opened Wrappers
  import opened Arithmetic

  datatype Config = Config(windowMs: int, hopMs: int, tFire: real, tDeep: real, bandLow: real, bandHigh: real,
                           minTurnMs: int)

  datatype ConfigError = WindowOrHop | NegativeMinimum

  predicate ValidConfig(c: Config) { 0 < c.hopMs <= c.windowMs && 0 <= c.minTurnMs }

  datatype TurnSpan = TurnSpan(startMs: int, endMs: int, ambiguous: bool)

  datatype Stage = WholeUtterance | Windowed

  datatype Reason = SingleSpeaker | RuleA | DeepDip | RuleB | NoDip | NoRoleSupport | MinTurn | TooShort

  datatype SplitMetrics = SplitMetrics(stage: Stage, windows: nat, reason: Reason, wholeCosRef: Option<real>,
                                       dipStartsMs: seq<int>, changePointsMs: seq<int>, embeddedWindows: nat)

  datatype Role = Reference | Other | Unknown

  /** Neighbour similarity and, when there is a reference, reference similarity of each window. */
  datatype Signals = Signals(cosPrev: seq<Option<real>>, cosRef: seq<Option<real>>)

  // ----- windows -----

  function WindowCount(c: Config, totalMs: int): nat
    requires ValidConfig(c)
  {
    if totalMs < c.windowMs then 0 else (totalMs - c.windowMs) / c.hopMs + 1
  }

  function WindowStarts(c: Config, totalMs: int): seq<int>
    requires ValidConfig(c)
  {
    seq(WindowCount(c, totalMs), i requires 0 <= i < WindowCount(c, totalMs) => i * c.hopMs)
  }

  /** Window starts are the multiples of the hop, and every window lies in the utterance. */
  lemma WindowStartsAt(c: Config, totalMs: int, i: nat)
    requires ValidConfig(c) && i < WindowCount(c, totalMs)
    ensures WindowStarts(c, totalMs)[i] == i * c.hopMs >= 0 && i * c.hopMs + c.windowMs <= totalMs
  {
    var q := (totalMs - c.windowMs) / c.hopMs;
    MulMonotone(i, q, c.hopMs);
    assert q * c.hopMs <= totalMs - c.windowMs;
    MulMonotone(0, i, c.hopMs);
  }

  lemma QuotientReaches(rest: nat, hop: nat, i: nat)
    requires hop > 0
    ensures i <= rest / hop <==> i * hop <= rest
  {
    var q := rest / hop;
    assert q * hop <= rest < q * hop + hop;
    if i <= q {
      MulMonotone(i, q, hop);
    } else {
      MulGap(q, i, hop);
    }
  }

  /** Every window that fits is there: exactly the starts from which a whole window is left. */
  lemma WindowFitsIff(c: Config, totalMs: int, i: nat)
    requires ValidConfig(c)
    ensures i < WindowCount(c, totalMs) <==> i * c.hopMs + c.windowMs <= totalMs
  {
    MulMonotone(0, i, c.hopMs);
    if totalMs >= c.windowMs {
      QuotientReaches(totalMs - c.windowMs, c.hopMs, i);
    }
  }

  function WindowVector<V>(c: Config, embed: (int, int) -> V, i: nat): V {
    embed(i * c.hopMs, i * c.hopMs + c.windowMs)
  }

  function PrevAt<V>(c: Config, embed: (int, int) -> V, cosine: (V, V) -> real, i: nat): Option<real> {
    if i == 0 then None else Some(cosine(WindowVector(c, embed, i - 1), WindowVector(c, embed, i)))
  }

  function RefAt<V>(c: Config, embed: (int, int) -> V, cosine: (V, V) -> real, reference: Option<V>,
                    i: nat): Option<real> {
    if reference.None? then None else Some(cosine(reference.value, WindowVector(c, embed, i)))
  }

  function SignalsOf<V>(c: Config, n: nat, embed: (int, int) -> V, cosine: (V, V) -> real,
                        reference: Option<V>): Signals {
    Signals(seq(n, i requires 0 <= i < n => PrevAt(c, embed, cosine, i)),
            seq(n, i requires 0 <= i < n => RefAt(c, embed, cosine, reference, i)))
  }

  // ----- rules -----

  predicate IsDip(c: Config, cosPrev: seq<Option<real>>, position: int) {
    0 <= position < |cosPrev| && cosPrev[position].Some? && cosPrev[position].value < c.tFire
  }

  /** Another dip immediately before or after this one. */
  predicate HasConsecutiveDip(c: Config, cosPrev: seq<Option<real>>, position: int) {
    IsDip(c, cosPrev, position - 1) || IsDip(c, cosPrev, position + 1)
  }

  function RoleOf(c: Config, cosRef: real): Role {
    if cosRef >= c.bandHigh then Reference else if cosRef <= c.bandLow then Other else Unknown
  }

  function Known(values: seq<Option<real>>): seq<real> {
    if values == [] then []
    else Known(values[..|values| - 1]) + if values[|values| - 1].Some? then [values[|values| - 1].value] else []
  }

  function Sum(values: seq<real>): real {
    if values == [] then 0.0 else Sum(values[..|values| - 1]) + values[|values| - 1]
  }

  predicate OpposingRoles(c: Config, cosRef: seq<Option<real>>, position: nat)
    requires position <= |cosRef|
  {
    var left, right := Known(cosRef[..position]), Known(cosRef[position..]);
    left != [] && right != []
    && {RoleOf(c, Sum(left) / |left| as real), RoleOf(c, Sum(right) / |right| as real)} == {Reference, Other}
  }

  /** The rule that accepts a dip as a change of speaker, if any. */
  function RuleFor(c: Config, s: Signals, position: nat): Option<Reason>
    requires IsDip(c, s.cosPrev, position) && |s.cosRef| == |s.cosPrev|
  {
    if HasConsecutiveDip(c, s.cosPrev, position) then Some(RuleA)
    else if s.cosPrev[position].value < c.tDeep then Some(DeepDip)
    else if OpposingRoles(c, s.cosRef, position) then Some(RuleB)
    else None
  }

  // ----- change points -----

  /** Positions of the dips among the first `n` windows. */
  function Dips(c: Config, cosPrev: seq<Option<real>>, n: nat): seq<nat>
    requires n <= |cosPrev|
  {
    if n == 0 then [] else Dips(c, cosPrev, n - 1) + if IsDip(c, cosPrev, n - 1) then [n - 1] else []
  }

  datatype Change = Change(startMs: int, rule: Reason)

  /** Dips that a rule accepts, among the first `n` windows, in order. */
  function AcceptedDips(c: Config, s: Signals, n: nat): seq<Change>
    requires n <= |s.cosPrev| == |s.cosRef|
  {
    if n == 0 then []
    else
      AcceptedDips(c, s, n - 1)
      + if IsDip(c, s.cosPrev, n - 1) && RuleFor(c, s, n - 1).Some?
        then [Change(Times(n - 1, c.hopMs), RuleFor(c, s, n - 1).value)] else []
  }

  /** Neighbouring changes describe one transition: one that starts at most a hop after the
      last one kept is dropped. */
  function Merge(changes: seq<Change>, hopMs: int): seq<Change> {
    if changes == [] then []
    else
      var merged := Merge(changes[..|changes| - 1], hopMs);
      var x := changes[|changes| - 1];
      if merged != [] && x.startMs - merged[|merged| - 1].startMs <= hopMs then merged else merged + [x]
  }

  function Usable(merged: seq<Change>, totalMs: int, minTurnMs: int): seq<Change> {
    if merged == [] then []
    else
      var x := merged[|merged| - 1];
      Usable(merged[..|merged| - 1], totalMs, minTurnMs)
      + if x.startMs >= minTurnMs && totalMs - x.startMs >= minTurnMs then [x] else []
  }

  function SpansBetween(points: seq<Change>, totalMs: int): seq<TurnSpan> {
    seq(|points| + 1, k requires 0 <= k <= |points| =>
          TurnSpan(if k == 0 then 0 else points[k - 1].startMs, if k == |points| then totalMs else points[k].startMs,
                   false))
  }

  /** The usable change points of an utterance. */
  function ChangePoints(c: Config, s: Signals, totalMs: int): seq<Change>
    requires |s.cosPrev| == |s.cosRef|
  {
    Usable(Merge(AcceptedDips(c, s, |s.cosPrev|), c.hopMs), totalMs, c.minTurnMs)
  }

  // ----- what holds of change points -----

  /** Changes in ascending order, at multiples of the hop, at least `gap` hops apart, and
      before window `limit`. */
  ghost predicate Spaced(changes: seq<Change>, hopMs: int, gap: int, limit: int) {
    && (forall k :: 0 <= k < |changes| ==> IsMultiple(changes[k].startMs, hopMs, limit))
    && (forall k :: 0 < k < |changes| ==> changes[k].startMs - changes[k - 1].startMs >= gap * hopMs)
  }

  /** `x` is `i * hopMs` for a window 0 < i < limit. */
  ghost predicate IsMultiple(x: int, hopMs: int, limit: int) { exists i: int :: 0 < i < limit && x == Times(i, hopMs) }

  function Times(i: int, hopMs: int): int { i * hopMs }

  lemma AcceptedOneMore(c: Config, s: Signals, n: nat) returns (x: Option<Change>)
    requires 0 < n <= |s.cosPrev| == |s.cosRef| && s.cosPrev[0].None?
    ensures AcceptedDips(c, s, n) == AcceptedDips(c, s, n - 1) + if x.Some? then [x.value] else []
    ensures x.Some? ==> n > 1 && x.value.startMs == Times(n - 1, c.hopMs) && x.value.rule in {RuleA, DeepDip, RuleB}
  {
    hide RuleFor;
    if IsDip(c, s.cosPrev, n - 1) && RuleFor(c, s, n - 1).Some? {
      RuleAccepts(c, s, n - 1);
      x := Some(Change(Times(n - 1, c.hopMs), RuleFor(c, s, n - 1).value));
    } else {
      x := None;
    }
  }

  lemma {:induction false} AcceptedSpaced(c: Config, s: Signals, n: nat)
    requires ValidConfig(c) && n <= |s.cosPrev| == |s.cosRef|
    requires |s.cosPrev| > 0 ==> s.cosPrev[0].None?
    ensures Spaced(AcceptedDips(c, s, n), c.hopMs, 1, n)
    ensures forall k :: 0 <= k < |AcceptedDips(c, s, n)| ==> AcceptedDips(c, s, n)[k].rule in {RuleA, DeepDip, RuleB}
  {
    hide RuleFor, Times, Spaced, AcceptedDips;
    if n == 0 {
      NothingAccepted(c, s);
    } else {
      AcceptedSpaced(c, s, n - 1);
      var before := AcceptedDips(c, s, n - 1);
      var x := AcceptedOneMore(c, s, n);
      if before != [] {
        LastIsMultiple(before, c.hopMs, 1, n - 1);
        NextIsLater(before[|before| - 1].startMs, n - 1, c.hopMs);
      }
      SpacedWider(before, c.hopMs, 1, n - 1, n);
      if x.Some? {
        assert IsMultiple(x.value.startMs, c.hopMs, n);
        SpacedAppend(before, x.value, c.hopMs, 1, n);
      } else {
        assert before + [] == before;
      }
    }
  }

  lemma NothingAccepted(c: Config, s: Signals)
    requires |s.cosPrev| == |s.cosRef|
    ensures AcceptedDips(c, s, 0) == [] && Spaced([], c.hopMs, 1, 0)
  {
  }

  lemma LastIsMultiple(changes: seq<Change>, hopMs: int, gap: int, limit: int)
    requires Spaced(changes, hopMs, gap, limit) && changes != []
    ensures IsMultiple(changes[|changes| - 1].startMs, hopMs, limit)
  {
  }

  lemma RuleAccepts(c: Config, s: Signals, position: nat)
    requires IsDip(c, s.cosPrev, position) && |s.cosRef| == |s.cosPrev|
    ensures RuleFor(c, s, position).Some? ==> RuleFor(c, s, position).value in {RuleA, DeepDip, RuleB}
  {
    hide OpposingRoles, HasConsecutiveDip;
  }

  /** A dip without a dip beside it changes the speaker only if it is deep or the two sides
      have opposing roles; two dips side by side always do. */
  lemma LonelyDip(c: Config, s: Signals, position: nat)
    requires IsDip(c, s.cosPrev, position) && |s.cosRef| == |s.cosPrev|
    ensures var alone := forall q :: IsDip(c, s.cosPrev, q) ==> q == position || q < position - 1 || q > position + 1;
            && (RuleFor(c, s, position) == Some(RuleA) <==> !alone)
            && (alone ==> (RuleFor(c, s, position) == Some(DeepDip) <==> s.cosPrev[position].value < c.tDeep))
            && (alone ==>
                (RuleFor(c, s, position).None? <==>
                 s.cosPrev[position].value >= c.tDeep && !OpposingRoles(c, s.cosRef, position)))
  {
    hide IsDip, OpposingRoles;
    if HasConsecutiveDip(c, s.cosPrev, position) {
      var q := if IsDip(c, s.cosPrev, position - 1) then position - 1 else position + 1;
      assert IsDip(c, s.cosPrev, q);
    }
  }

  lemma NextIsLater(x: int, i: int, hopMs: int)
    requires hopMs > 0 && IsMultiple(x, hopMs, i)
    ensures Times(i, hopMs) - x >= hopMs
  {
    hide Times;
    var j :| 0 < j < i && x == Times(j, hopMs);
    TimesApart(j, i, hopMs);
  }

  lemma SpacedWider(changes: seq<Change>, hopMs: int, gap: int, limit: int, wider: int)
    requires Spaced(changes, hopMs, gap, limit) && limit <= wider
    ensures Spaced(changes, hopMs, gap, wider)
  {
    forall k | 0 <= k < |changes|
      ensures IsMultiple(changes[k].startMs, hopMs, wider)
    {
      assert IsMultiple(changes[k].startMs, hopMs, limit);
    }
  }

  lemma SpacedAppend(changes: seq<Change>, x: Change, hopMs: int, gap: int, limit: int)
    requires Spaced(changes, hopMs, gap, limit) && IsMultiple(x.startMs, hopMs, limit)
    requires changes != [] ==> x.startMs - changes[|changes| - 1].startMs >= gap * hopMs
    ensures Spaced(changes + [x], hopMs, gap, limit)
  {
  }

  /** Two multiples of the hop more than one hop apart are at least two hops apart. */
  lemma TwoHops(x: int, y: int, hopMs: int, limit: int)
    requires hopMs > 0 && IsMultiple(x, hopMs, limit) && IsMultiple(y, hopMs, limit) && y - x > hopMs
    ensures y - x >= 2 * hopMs
  {
    hide Times;
    var i :| 0 < i < limit && x == Times(i, hopMs);
    var j :| 0 < j < limit && y == Times(j, hopMs);
    TimesApart(i, j, hopMs);
  }

  lemma TimesApart(i: int, j: int, hopMs: int)
    requires hopMs > 0
    ensures j <= i + 1 ==> Times(j, hopMs) - Times(i, hopMs) <= hopMs
    ensures j >= i + 1 ==> Times(j, hopMs) - Times(i, hopMs) >= hopMs
    ensures j >= i + 2 ==> Times(j, hopMs) - Times(i, hopMs) >= 2 * hopMs
  {
    var d := j - i;
    assert j * hopMs == i * hopMs + d * hopMs;
    if d <= 1 { MulMonotone(d, 1, hopMs); }
    if d >= 1 { MulMonotone(1, d, hopMs); }
    if d >= 2 { MulMonotone(2, d, hopMs); }
  }

  lemma {:induction false} MergeSpaced(changes: seq<Change>, hopMs: int, limit: int)
    requires hopMs > 0 && Spaced(changes, hopMs, 1, limit)
    ensures Spaced(Merge(changes, hopMs), hopMs, 2, limit)
    ensures forall x :: x in Merge(changes, hopMs) ==> x in changes
  {
    if changes != [] {
      var n := |changes| - 1;
      assert changes == changes[..n] + [changes[n]];
      MergeSpaced(changes[..n], hopMs, limit);
      var merged := Merge(changes[..n], hopMs);
      if !(merged != [] && changes[n].startMs - merged[|merged| - 1].startMs <= hopMs) {
        if merged != [] {
          assert IsMultiple(merged[|merged| - 1].startMs, hopMs, limit);
          TwoHops(merged[|merged| - 1].startMs, changes[n].startMs, hopMs, limit);
        }
        SpacedAppend(merged, changes[n], hopMs, 2, limit);
      }
    }
  }

  lemma {:induction false} UsableMembers(merged: seq<Change>, totalMs: int, minTurnMs: int, x: Change)
    ensures x in Usable(merged, totalMs, minTurnMs) <==>
            x in merged && x.startMs >= minTurnMs && totalMs - x.startMs >= minTurnMs
  {
    if merged != [] {
      var n := |merged| - 1;
      assert merged == merged[..n] + [merged[n]];
      UsableMembers(merged[..n], totalMs, minTurnMs, x);
    }
  }

  lemma SpacedPrefix(changes: seq<Change>, hopMs: int, gap: int, limit: int)
    requires changes != [] && Spaced(changes, hopMs, gap, limit)
    ensures Spaced(changes[..|changes| - 1], hopMs, gap, limit)
            && IsMultiple(changes[|changes| - 1].startMs, hopMs, limit)
    ensures |changes| > 1 ==> changes[|changes| - 2].startMs + gap * hopMs <= changes[|changes| - 1].startMs
  {
  }

  lemma {:induction false} UsableSpaced(merged: seq<Change>, totalMs: int, minTurnMs: int, hopMs: int, limit: int)
    requires hopMs > 0 && Spaced(merged, hopMs, 2, limit)
    ensures Spaced(Usable(merged, totalMs, minTurnMs), hopMs, 2, limit)
    ensures Usable(merged, totalMs, minTurnMs) != [] ==>
              Usable(merged, totalMs, minTurnMs)[|Usable(merged, totalMs, minTurnMs)| - 1].startMs
                <= merged[|merged| - 1].startMs
  {
    hide Spaced, IsMultiple;
    if merged != [] {
      var n := |merged| - 1;
      SpacedPrefix(merged, hopMs, 2, limit);
      UsableSpaced(merged[..n], totalMs, minTurnMs, hopMs, limit);
      if merged[n].startMs >= minTurnMs && totalMs - merged[n].startMs >= minTurnMs {
        SpacedAppend(Usable(merged[..n], totalMs, minTurnMs), merged[n], hopMs, 2, limit);
      } else {
        assert Usable(merged[..n], totalMs, minTurnMs) + [] == Usable(merged[..n], totalMs, minTurnMs);
      }
    }
  }

  // ----- the turns -----

  /** The spans cut [0, totalMs) into non-empty pieces. */
  ghost predicate Tiles(spans: seq<TurnSpan>, totalMs: int) {
    && spans != [] && spans[0].startMs == 0 && spans[|spans| - 1].endMs == totalMs
    && (forall k :: 0 <= k < |spans| ==> spans[k].startMs < spans[k].endMs)
    && (forall k :: 0 < k < |spans| ==> spans[k].startMs == spans[k - 1].endMs)
  }

  predicate Decisive(c: Config, cosRef: real) { cosRef >= c.bandHigh || cosRef <= c.bandLow }

  /** The similarity of the whole utterance to the reference. */
  function WholeCosRef<V>(totalMs: int, embed: (int, int) -> V, cosine: (V, V) -> real, reference: Option<V>,
                          whole: Option<V>): Option<real> {
    if reference.None? then None
    else Some(cosine(reference.value, if whole.Some? then whole.value else embed(0, totalMs)))
  }

  /** The turns of an utterance. */
  function Turns<V>(c: Config, totalMs: int, embed: (int, int) -> V, cosine: (V, V) -> real, reference: Option<V>,
                    whole: Option<V>): seq<TurnSpan>
    requires ValidConfig(c)
  {
    if totalMs <= 0 then [TurnSpan(0, 0, true)]
    else
      var cosRef := WholeCosRef(totalMs, embed, cosine, reference, whole);
      var n := WindowCount(c, totalMs);
      if cosRef.Some? && Decisive(c, cosRef.value) then [TurnSpan(0, totalMs, false)]
      else if n < 2 then [TurnSpan(0, totalMs, true)]
      else
        var s := SignalsOf(c, n, embed, cosine, reference);
        if Dips(c, s.cosPrev, n) == [] then [TurnSpan(0, totalMs, false)]
        else if ChangePoints(c, s, totalMs) == [] then [TurnSpan(0, totalMs, true)]
        else SpansBetween(ChangePoints(c, s, totalMs), totalMs)
  }

  lemma {:induction false} MeanBounds(values: seq<real>, low: real, high: real)
    requires values != [] && forall k :: 0 <= k < |values| ==> low <= values[k] <= high
    ensures low * |values| as real <= Sum(values) <= high * |values| as real
  {
    var n := |values| - 1;
    if n > 0 {
      MeanBounds(values[..n], low, high);
      assert low * |values| as real == low * n as real + low && high * |values| as real == high * n as real + high;
    } else {
      assert values[..0] == [] && Sum(values) == values[0];
    }
  }

  lemma {:induction false} Extremes(values: seq<real>) returns (low: real, high: real)
    requires values != []
    ensures low in values && high in values && forall k :: 0 <= k < |values| ==> low <= values[k] <= high
  {
    var n := |values| - 1;
    low, high := values[n], values[n];
    if n > 0 {
      var l, h := Extremes(values[..n]);
      low, high := if l < low then l else low, if h > high then h else high;
    }
  }

  lemma QuotientBetween(sum: real, n: real, low: real, high: real)
    requires n > 0.0 && low * n <= sum <= high * n
    ensures low <= sum / n <= high
  {
    var mean := sum / n;
    assert mean * n == sum;
    AtMost(low, mean, n);
    AtMost(mean, high, n);
  }

  /** A mean lies between two of its values. */
  lemma MeanBetween(values: seq<real>) returns (low: real, high: real)
    requires values != []
    ensures low in values && high in values && low <= Sum(values) / |values| as real <= high
  {
    low, high := Extremes(values);
    MeanBounds(values, low, high);
    QuotientBetween(Sum(values), |values| as real, low, high);
  }

  lemma AtMost(a: real, b: real, n: real)
    requires n > 0.0 && a * n <= b * n
    ensures a <= b
  {
    assert (b - a) * n >= 0.0;
  }

  lemma {:induction false} KnownMembers(values: seq<Option<real>>, v: real)
    requires v in Known(values)
    ensures Some(v) in values
  {
    var n := |values| - 1;
    if v in Known(values[..n]) {
      KnownMembers(values[..n], v);
    }
  }

  /** Opposing roles have witnesses: a window that is decidedly the reference's and one that is
      decidedly not. Where every window is undecided, or all are decided alike, no change of
      speaker rests on roles. */
  lemma OpposingHasWitnesses(c: Config, cosRef: seq<Option<real>>, position: nat) returns (own: real, other: real)
    requires position <= |cosRef| && OpposingRoles(c, cosRef, position)
    ensures Some(own) in cosRef && own >= c.bandHigh
    ensures Some(other) in cosRef && other <= c.bandLow
  {
    var left, right := Known(cosRef[..position]), Known(cosRef[position..]);
    var l, l' := MeanBetween(left);
    var r, r' := MeanBetween(right);
    KnownMembers(cosRef[..position], l);
    KnownMembers(cosRef[..position], l');
    KnownMembers(cosRef[position..], r);
    KnownMembers(cosRef[position..], r');
    var first := RoleOf(c, Sum(left) / |left| as real);
    if first == Reference {
      own, other := l', r;
    } else {
      assert first in {first, RoleOf(c, Sum(right) / |right| as real)};
      own, other := r', l;
    }
  }

  /** The known values are all values that are there, as often as they are. */
  lemma {:induction false} KnownCounts(values: seq<Option<real>>, v: real)
    ensures multiset(Known(values))[v] == multiset(values)[Some(v)]
  {
    if values != [] {
      var n := |values| - 1;
      KnownCounts(values[..n], v);
      assert values == values[..n] + [values[n]];
      assert multiset(values) == multiset(values[..n]) + multiset{values[n]};
    }
  }

  lemma QuotientAtLeast(sum: real, n: real, bound: real)
    requires n > 0.0
    ensures sum / n >= bound <==> sum >= bound * n
    ensures sum / n <= bound <==> sum <= bound * n
  {
    var mean := sum / n;
    assert mean * n == sum;
    assert (mean - bound) * n == sum - bound * n;
    assert mean > bound ==> (mean - bound) * n > 0.0;
    assert mean < bound ==> (bound - mean) * n > 0.0;
  }

  /** On average the values are decidedly the reference's, or decidedly not. */
  predicate LikeReference(c: Config, values: seq<real>) { Sum(values) >= c.bandHigh * |values| as real }

  predicate UnlikeReference(c: Config, values: seq<real>) {
    Sum(values) <= c.bandLow * |values| as real && !LikeReference(c, values)
  }

  /** The two sides of a dip oppose exactly if the values on one side, whichever it is, are on
      average decidedly the reference's and those on the other side decidedly not. */
  lemma OpposingIff(c: Config, cosRef: seq<Option<real>>, position: nat)
    requires position <= |cosRef|
    ensures var left, right := Known(cosRef[..position]), Known(cosRef[position..]);
            OpposingRoles(c, cosRef, position) <==>
            && left != [] && right != []
            && ((LikeReference(c, left) && UnlikeReference(c, right))
                || (UnlikeReference(c, left) && LikeReference(c, right)))
  {
    hide Known, Sum;
    var left, right := Known(cosRef[..position]), Known(cosRef[position..]);
    if left != [] && right != [] {
      QuotientAtLeast(Sum(left), |left| as real, c.bandHigh);
      QuotientAtLeast(Sum(left), |left| as real, c.bandLow);
      QuotientAtLeast(Sum(right), |right| as real, c.bandHigh);
      QuotientAtLeast(Sum(right), |right| as real, c.bandLow);
      var l, r := RoleOf(c, Sum(left) / |left| as real), RoleOf(c, Sum(right) / |right| as real);
      TwoRoles(l, r);
    }
  }

  lemma TwoRoles(l: Role, r: Role)
    ensures {l, r} == {Reference, Other} <==> (l == Reference && r == Other) || (l == Other && r == Reference)
  {
    assert {l, r} == {Reference, Other} ==> Reference in {l, r} && Other in {l, r};
  }

  /** How like the window at `from` is to the reference. */
  function LikeAt<V>(c: Config, embed: (int, int) -> V, cosine: (V, V) -> real, reference: V, from: int): real {
    cosine(reference, embed(from, from + c.windowMs))
  }

  predicate Clear(c: Config, x: real, like: bool) {
    if like then x >= c.bandHigh else x <= c.bandLow && x < c.bandHigh
  }

  /** Each of these windows is clearly like the reference, or each clearly unlike it. */
  predicate AllClear<V>(c: Config, embed: (int, int) -> V, cosine: (V, V) -> real, reference: V, first: nat, end: nat,
                        like: bool) {
    forall i :: first <= i < end ==> Clear(c, LikeAt(c, embed, cosine, reference, Times(i, c.hopMs)), like)
  }

  /** Where all windows before a dip are clearly like the reference and all from it on clearly
      unlike it, or the other way round, the sides oppose; without a reference none do. */
  lemma ClearSidesOppose<V>(c: Config, n: nat, embed: (int, int) -> V, cosine: (V, V) -> real, reference: Option<V>,
                            p: nat, like: bool)
    requires 0 < p < n
    requires reference.Some? ==> && AllClear(c, embed, cosine, reference.value, 0, p, like)
                                 && AllClear(c, embed, cosine, reference.value, p, n, !like)
    ensures OpposingRoles(c, SignalsOf(c, n, embed, cosine, reference).cosRef, p) <==> reference.Some?
  {
    hide Known, Sum, LikeReference, UnlikeReference, OpposingRoles, Clear;
    var cosRef := SignalsOf(c, n, embed, cosine, reference).cosRef;
    OpposingIff(c, cosRef, p);
    if reference.None? {
      NothingKnown(cosRef[..p]);
    } else {
      forall i | 0 <= i < n
        ensures cosRef[i].Some? && Clear(c, cosRef[i].value, if i < p then like else !like)
      {
        assert cosRef[i] == Some(LikeAt(c, embed, cosine, reference.value, Times(i, c.hopMs)));
      }
      SideIsClear(c, cosRef[..p], like);
      SideIsClear(c, cosRef[p..], !like);
    }
  }

  lemma NothingKnown(values: seq<Option<real>>)
    requires forall i :: 0 <= i < |values| ==> values[i].None?
    ensures Known(values) == []
  {
    if Known(values) != [] {
      KnownMembers(values, Known(values)[0]);
    }
  }

  lemma SideIsClear(c: Config, values: seq<Option<real>>, like: bool)
    requires values != [] && forall i :: 0 <= i < |values| ==> values[i].Some? && Clear(c, values[i].value, like)
    ensures Known(values) != []
    ensures if like then LikeReference(c, Known(values)) else UnlikeReference(c, Known(values))
  {
    hide Known, Sum, Clear;
    var known := Known(values);
    assert Some(values[0].value) in values;
    KnownCounts(values, values[0].value);
    assert multiset(known)[values[0].value] > 0;
    var low, high := Extremes(known);
    KnownMembers(values, low);
    KnownMembers(values, high);
    MeanBounds(known, low, high);
    ClearBounds(c, Sum(known), |known| as real, low, high, like);
  }

  lemma ClearBounds(c: Config, sum: real, n: real, low: real, high: real, like: bool)
    requires n > 0.0 && low * n <= sum <= high * n && Clear(c, low, like) && Clear(c, high, like)
    ensures if like then sum >= c.bandHigh * n else sum <= c.bandLow * n && sum < c.bandHigh * n
  {
    if like {
      MulAtLeast(low, c.bandHigh, n);
    } else {
      MulAtLeast(c.bandLow, high, n);
      MulAtLeast(high, c.bandHigh, n);
    }
  }

  lemma MulAtLeast(a: real, b: real, n: real)
    requires n > 0.0
    ensures a >= b <==> a * n >= b * n
  {
    assert (a - b) * n == a * n - b * n;
    assert a > b ==> (a - b) * n > 0.0;
    assert a < b ==> (b - a) * n > 0.0;
  }

  lemma {:induction false} DipsMembers(c: Config, cosPrev: seq<Option<real>>, n: nat, p: nat)
    requires n <= |cosPrev|
    ensures p in Dips(c, cosPrev, n) <==> p < n && IsDip(c, cosPrev, p)
  {
    hide IsDip;
    if n > 0 {
      DipsMembers(c, cosPrev, n - 1, p);
      var front := Dips(c, cosPrev, n - 1);
      assert p in front + [n - 1] <==> p in front || p == n - 1;
    }
  }

  /** The two embeddings agree on every piece of the utterance. */
  ghost predicate AgreeInside<V(!new)>(embed: (int, int) -> V, embed': (int, int) -> V, totalMs: int) {
    forall s, e :: 0 <= s < e <= totalMs ==> embed(s, e) == embed'(s, e)
  }

  /** Nothing outside the utterance is ever embedded: turns and metrics depend only on its
      own pieces. */
  lemma OnlyInsideMatters<V(!new)>(c: Config, totalMs: int, embed: (int, int) -> V, embed': (int, int) -> V,
                                   cosine: (V, V) -> real, reference: Option<V>, whole: Option<V>)
    requires ValidConfig(c) && AgreeInside(embed, embed', totalMs)
    ensures Turns(c, totalMs, embed, cosine, reference, whole) == Turns(c, totalMs, embed', cosine, reference, whole)
    ensures MetricsOf(c, totalMs, embed, cosine, reference, whole)
            == MetricsOf(c, totalMs, embed', cosine, reference, whole)
  {
    hide ChangePoints, Dips, SpansBetween, WindowedMetrics, WindowCount;
    var n := WindowCount(c, totalMs);
    forall i | 0 <= i < n
      ensures WindowVector(c, embed, i) == WindowVector(c, embed', i)
    {
      WindowStartsAt(c, totalMs, i);
    }
    assert SignalsOf(c, n, embed, cosine, reference) == SignalsOf(c, n, embed', cosine, reference);
  }

  // ----- what a call reports -----

  function Starts(changes: seq<Change>): seq<int> {
    seq(|changes|, k requires 0 <= k < |changes| => changes[k].startMs)
  }

  function DipStarts(c: Config, dips: seq<nat>): seq<int> {
    seq(|dips|, k requires 0 <= k < |dips| => dips[k] * c.hopMs)
  }

  /** The strongest rule that supports any of the changes. */
  function Strongest(changes: seq<Change>): (r: Reason)
    ensures r == RuleA <==> exists x :: x in changes && x.rule == RuleA
    ensures r == DeepDip <==>
            (exists x :: x in changes && x.rule == DeepDip) && forall x :: x in changes ==> x.rule != RuleA
  {
    if exists k :: 0 <= k < |changes| && changes[k].rule == RuleA then RuleA
    else if exists k :: 0 <= k < |changes| && changes[k].rule == DeepDip then DeepDip
    else RuleB
  }

  function WindowedMetrics(c: Config, s: Signals, totalMs: int, wholeCosRef: Option<real>, embedded: nat): SplitMetrics
    requires |s.cosPrev| == |s.cosRef|
  {
    var n := |s.cosPrev|;
    var dips := Dips(c, s.cosPrev, n);
    var merged := Merge(AcceptedDips(c, s, n), c.hopMs);
    var points := ChangePoints(c, s, totalMs);
    if dips == [] then SplitMetrics(Windowed, n, NoDip, wholeCosRef, [], [], embedded)
    else if points == [] then
      SplitMetrics(Windowed, n, if merged != [] then MinTurn else NoRoleSupport, wholeCosRef, DipStarts(c, dips),
                   Starts(merged), embedded)
    else SplitMetrics(Windowed, n, Strongest(points), wholeCosRef, DipStarts(c, dips), Starts(points), embedded)
  }

  /** The metrics of a call; the whole utterance is embedded only where there is a reference
      to compare it with and the caller did not embed it already. */
  function MetricsOf<V>(c: Config, totalMs: int, embed: (int, int) -> V, cosine: (V, V) -> real, reference: Option<V>,
                        whole: Option<V>): SplitMetrics
    requires ValidConfig(c)
  {
    var n := WindowCount(c, totalMs);
    var paid := if reference.Some? && whole.None? then 1 else 0;
    var similarity := WholeCosRef(totalMs, embed, cosine, reference, whole);
    if totalMs <= 0 then SplitMetrics(WholeUtterance, 0, TooShort, None, [], [], 0)
    else if similarity.Some? && Decisive(c, similarity.value)
      then SplitMetrics(WholeUtterance, 0, SingleSpeaker, similarity, [], [], paid)
    else if n < 2 then SplitMetrics(Windowed, n, TooShort, similarity, [], [], paid)
    else WindowedMetrics(c, SignalsOf(c, n, embed, cosine, reference), totalMs, similarity, paid + n)
  }

  /** Change points are accepted dips, two hops or more apart, with room at both ends. */
  lemma ChangePointsSpaced(c: Config, s: Signals, totalMs: int)
    requires ValidConfig(c) && 0 < |s.cosPrev| == |s.cosRef| && s.cosPrev[0].None?
    ensures Spaced(ChangePoints(c, s, totalMs), c.hopMs, 2, |s.cosPrev|)
    ensures forall k :: 0 <= k < |ChangePoints(c, s, totalMs)| ==>
              && ChangePoints(c, s, totalMs)[k] in AcceptedDips(c, s, |s.cosPrev|)
              && c.minTurnMs <= ChangePoints(c, s, totalMs)[k].startMs <= totalMs - c.minTurnMs
  {
    hide Spaced, Merge, Usable, AcceptedDips;
    AcceptedSpaced(c, s, |s.cosPrev|);
    MergeSpaced(AcceptedDips(c, s, |s.cosPrev|), c.hopMs, |s.cosPrev|);
    UsableSpaced(Merge(AcceptedDips(c, s, |s.cosPrev|), c.hopMs), totalMs, c.minTurnMs, c.hopMs, |s.cosPrev|);
    forall x | x in ChangePoints(c, s, totalMs)
      ensures x in AcceptedDips(c, s, |s.cosPrev|) && c.minTurnMs <= x.startMs <= totalMs - c.minTurnMs
    {
      UsableMembers(Merge(AcceptedDips(c, s, |s.cosPrev|), c.hopMs), totalMs, c.minTurnMs, x);
    }
  }

  /** A dip that some rule accepts as a change of speaker. */
  predicate IsAccepted(c: Config, s: Signals, p: nat, x: Change)
    requires |s.cosPrev| == |s.cosRef|
  {
    IsDip(c, s.cosPrev, p) && RuleFor(c, s, p) == Some(x.rule) && x.startMs == Times(p, c.hopMs)
  }

  lemma {:induction false} AcceptedMembers(c: Config, s: Signals, n: nat, x: Change)
    requires n <= |s.cosPrev| == |s.cosRef|
    ensures x in AcceptedDips(c, s, n) <==> exists p: nat :: p < n && IsAccepted(c, s, p, x)
  {
    hide IsDip, RuleFor, Times;
    if n > 0 {
      AcceptedMembers(c, s, n - 1, x);
      var p := n - 1;
      if IsAccepted(c, s, p, x) {
        assert x == Change(Times(p, c.hopMs), RuleFor(c, s, p).value);
      }
      if x in AcceptedDips(c, s, n) && x !in AcceptedDips(c, s, p) {
        assert IsAccepted(c, s, p, x);
      }
    }
  }

  /** Every change is kept or starts at most a hop after one that is kept. */
  lemma {:induction false} MergeCovers(changes: seq<Change>, hopMs: int, k: nat) returns (kept: Change)
    requires hopMs >= 0 && k < |changes| && forall i, j :: 0 <= i < j < |changes| ==>
               changes[i].startMs <= changes[j].startMs
    ensures kept in Merge(changes, hopMs) && kept.startMs <= changes[k].startMs <= kept.startMs + hopMs
  {
    var n := |changes| - 1;
    if k < n {
      kept := MergeCovers(changes[..n], hopMs, k);
    } else {
      var merged := Merge(changes[..n], hopMs);
      kept := changes[n];
      if merged != [] && changes[n].startMs - merged[|merged| - 1].startMs <= hopMs {
        kept := merged[|merged| - 1];
        MergeFrom(changes[..n], hopMs, kept);
      }
    }
  }

  lemma {:induction false} MergeFrom(changes: seq<Change>, hopMs: int, x: Change)
    requires x in Merge(changes, hopMs)
    ensures x in changes
  {
    var n := |changes| - 1;
    if x in Merge(changes[..n], hopMs) {
      MergeFrom(changes[..n], hopMs, x);
    }
  }

  /** No accepted dip is passed over: the change it stands for starts there or at most a hop
      before, and is a change point if that leaves room at both ends. */
  lemma TransitionIsFound(c: Config, s: Signals, totalMs: int, p: nat, x: Change) returns (kept: Change)
    requires ValidConfig(c) && p < |s.cosPrev| == |s.cosRef| && s.cosPrev[0].None? && IsAccepted(c, s, p, x)
    ensures kept.startMs <= x.startMs <= kept.startMs + c.hopMs
    ensures c.minTurnMs <= kept.startMs <= totalMs - c.minTurnMs ==> kept in ChangePoints(c, s, totalMs)
  {
    hide IsAccepted, Spaced, AcceptedDips, Merge, Usable;
    var all := AcceptedDips(c, s, |s.cosPrev|);
    AcceptedMembers(c, s, |s.cosPrev|, x);
    AcceptedSpaced(c, s, |s.cosPrev|);
    SpacedAscends(all, c.hopMs, |s.cosPrev|);
    var k :| 0 <= k < |all| && all[k] == x;
    kept := MergeCovers(all, c.hopMs, k);
    UsableMembers(Merge(all, c.hopMs), totalMs, c.minTurnMs, kept);
  }

  lemma {:induction false} SpacedAscends(changes: seq<Change>, hopMs: int, limit: int)
    requires hopMs > 0 && Spaced(changes, hopMs, 1, limit)
    ensures forall i, j :: 0 <= i < j < |changes| ==> changes[i].startMs <= changes[j].startMs
  {
    if changes != [] {
      var n := |changes| - 1;
      SpacedPrefix(changes, hopMs, 1, limit);
      SpacedAscends(changes[..n], hopMs, limit);
    }
  }

  lemma PointInside(c: Config, x: int, totalMs: int)
    requires ValidConfig(c) && IsMultiple(x, c.hopMs, WindowCount(c, totalMs))
    ensures 0 < x < totalMs
  {
    var i :| 0 < i < WindowCount(c, totalMs) && x == Times(i, c.hopMs);
    WindowStartsAt(c, totalMs, i);
    MulMonotone(1, i, c.hopMs);
  }

  lemma SpanAt(points: seq<Change>, totalMs: int, k: nat)
    requires k <= |points|
    ensures |SpansBetween(points, totalMs)| == |points| + 1
    ensures SpansBetween(points, totalMs)[k]
            == TurnSpan(if k == 0 then 0 else points[k - 1].startMs,
                        if k == |points| then totalMs else points[k].startMs, false)
  {
  }

  lemma AscendingTile(points: seq<Change>, totalMs: int)
    requires points != []
    requires forall k :: 0 <= k < |points| ==> 0 < points[k].startMs < totalMs
    requires forall k :: 0 < k < |points| ==> points[k - 1].startMs < points[k].startMs
    ensures Tiles(SpansBetween(points, totalMs), totalMs)
  {
    hide SpansBetween;
    var spans := SpansBetween(points, totalMs);
    SpanAt(points, totalMs, 0);
    SpanAt(points, totalMs, |points|);
    forall k | 0 <= k < |spans|
      ensures spans[k].startMs < spans[k].endMs
    {
      SpanAt(points, totalMs, k);
    }
    forall k | 0 < k < |spans|
      ensures spans[k].startMs == spans[k - 1].endMs
    {
      SpanAt(points, totalMs, k - 1);
      SpanAt(points, totalMs, k);
    }
  }

  lemma SpansTile(c: Config, points: seq<Change>, totalMs: int)
    requires ValidConfig(c) && Spaced(points, c.hopMs, 2, WindowCount(c, totalMs)) && points != []
    ensures Tiles(SpansBetween(points, totalMs), totalMs)
  {
    hide WindowCount, IsMultiple, SpansBetween, Tiles;
    forall k | 0 <= k < |points|
      ensures 0 < points[k].startMs < totalMs
    {
      PointInside(c, points[k].startMs, totalMs);
    }
    forall k | 0 < k < |points|
      ensures points[k - 1].startMs < points[k].startMs
    {
      assert points[k].startMs - points[k - 1].startMs >= 2 * c.hopMs;
    }
    AscendingTile(points, totalMs);
  }

  /** Every non-empty utterance is tiled by its turns. */
  lemma TurnsTile<V>(c: Config, totalMs: int, embed: (int, int) -> V, cosine: (V, V) -> real, reference: Option<V>,
                     whole: Option<V>)
    requires ValidConfig(c) && totalMs > 0
    ensures Tiles(Turns(c, totalMs, embed, cosine, reference, whole), totalMs)
  {
    hide ChangePoints, Dips, Spaced, SpansBetween, IsMultiple;
    var n := WindowCount(c, totalMs);
    if n >= 2 {
      var s := SignalsOf(c, n, embed, cosine, reference);
      ChangePointsSpaced(c, s, totalMs);
      if ChangePoints(c, s, totalMs) != [] {
        SpansTile(c, ChangePoints(c, s, totalMs), totalMs);
      }
    }
  }

  /** Only the outer ends are checked against `min_turn_ms`; inner turns reach it as well
      when it is at most two hops. */
  lemma TurnsReachMinimum<V>(c: Config, totalMs: int, embed: (int, int) -> V, cosine: (V, V) -> real,
                             reference: Option<V>, whole: Option<V>, k: nat)
    requires ValidConfig(c) && c.minTurnMs <= 2 * c.hopMs
    requires |Turns(c, totalMs, embed, cosine, reference, whole)| > 1
    requires k < |Turns(c, totalMs, embed, cosine, reference, whole)|
    ensures var span := Turns(c, totalMs, embed, cosine, reference, whole)[k];
            span.endMs - span.startMs >= c.minTurnMs && !span.ambiguous
  {
    hide ChangePoints, Dips, IsMultiple, WindowCount;
    var n := WindowCount(c, totalMs);
    var s := SignalsOf(c, n, embed, cosine, reference);
    ChangePointsSpaced(c, s, totalMs);
    var points := ChangePoints(c, s, totalMs);
    assert 0 < k < |points| ==> points[k].startMs - points[k - 1].startMs >= 2 * c.hopMs;
  }

  /** The whole utterance is clearly like the reference, or clearly unlike it. */
  predicate ClearAsWhole<V>(c: Config, totalMs: int, embed: (int, int) -> V, cosine: (V, V) -> real,
                            reference: Option<V>, whole: Option<V>) {
    reference.Some? &&
    var similarity := cosine(reference.value, if whole.Some? then whole.value else embed(0, totalMs));
    similarity >= c.bandHigh || similarity <= c.bandLow
  }

  /** How like the window at `from` is to the one a hop before it. */
  function LikeBefore<V>(c: Config, embed: (int, int) -> V, cosine: (V, V) -> real, from: int): real {
    cosine(embed(from - c.hopMs, from - c.hopMs + c.windowMs), embed(from, from + c.windowMs))
  }

  /** No window is unlike the one before it. */
  predicate NoWindowStandsOut<V>(c: Config, n: nat, embed: (int, int) -> V, cosine: (V, V) -> real) {
    forall i :: 0 < i < n ==> LikeBefore(c, embed, cosine, Times(i, c.hopMs)) >= c.tFire
  }

  /** A non-empty utterance comes back as one span that is not ambiguous exactly when it is
      clear as a whole, or there are windows to compare and none stands out. */
  lemma SingleSpanIff<V>(c: Config, totalMs: int, embed: (int, int) -> V, cosine: (V, V) -> real, reference: Option<V>,
                         whole: Option<V>)
    requires ValidConfig(c) && totalMs > 0
    ensures Turns(c, totalMs, embed, cosine, reference, whole) == [TurnSpan(0, totalMs, false)]
            <==> ClearAsWhole(c, totalMs, embed, cosine, reference, whole)
                 || (WindowCount(c, totalMs) >= 2 && NoWindowStandsOut(c, WindowCount(c, totalMs), embed, cosine))
  {
    hide ChangePoints, IsDip, Times, NoWindowStandsOut;
    var n := WindowCount(c, totalMs);
    if n >= 2 {
      var s := SignalsOf(c, n, embed, cosine, reference);
      DipsEmpty(c, s.cosPrev, n);
      NoDipIff(c, n, embed, cosine, reference);
      assert ChangePoints(c, s, totalMs) != [] ==> |SpansBetween(ChangePoints(c, s, totalMs), totalMs)| > 1;
    }
  }

  lemma NoDipIff<V>(c: Config, n: nat, embed: (int, int) -> V, cosine: (V, V) -> real, reference: Option<V>)
    ensures (forall i :: 0 <= i < n ==> !IsDip(c, SignalsOf(c, n, embed, cosine, reference).cosPrev, i))
            <==> NoWindowStandsOut(c, n, embed, cosine)
  {
    var cosPrev := SignalsOf(c, n, embed, cosine, reference).cosPrev;
    forall i | 0 < i < n
      ensures IsDip(c, cosPrev, i) <==> LikeBefore(c, embed, cosine, Times(i, c.hopMs)) < c.tFire
    {
      assert cosPrev[i] == PrevAt(c, embed, cosine, i);
      assert (i - 1) * c.hopMs == i * c.hopMs - c.hopMs;
    }
    assert !IsDip(c, cosPrev, 0);
  }

  lemma {:induction false} DipsEmpty(c: Config, cosPrev: seq<Option<real>>, n: nat)
    requires n <= |cosPrev|
    ensures Dips(c, cosPrev, n) == [] <==> forall i :: 0 <= i < n ==> !IsDip(c, cosPrev, i)
  {
    hide IsDip;
    if n > 0 {
      DipsEmpty(c, cosPrev, n - 1);
    }
  }

  // ----- the bound of two hops is exact -----

  function Series(first: int, step: int, n: nat): seq<Change> {
    seq(n, i requires 0 <= i < n => Change(first + i * step, RuleA))
  }

  lemma SeriesOneMore(first: int, step: int, n: nat)
    ensures Series(first, step, n + 1) == Series(first, step, n) + [Change(first + n * step, RuleA)]
    ensures Series(first, step, n + 1)[..n] == Series(first, step, n)
  {
  }

  lemma MergeOneMore(changes: seq<Change>, x: Change, hopMs: int)
    ensures var merged := Merge(changes, hopMs);
            Merge(changes + [x], hopMs) ==
            if merged != [] && x.startMs - merged[|merged| - 1].startMs <= hopMs then merged else merged + [x]
  {
    assert (changes + [x])[..|changes|] == changes;
  }

  /** Of changes one hop apart every other one is kept. */
  lemma {:induction false} MergeSeries(hopMs: int, n: nat)
    requires hopMs > 0
    ensures Merge(Series(hopMs, hopMs, n), hopMs) == Series(hopMs, 2 * hopMs, (n + 1) / 2)
  {
    hide Series, Merge;
    SeriesEmpty(hopMs);
    if n == 0 {
      MergeNothing(hopMs);
    } else {
      var m := n / 2;
      MergeSeries(hopMs, n - 1);
      SeriesOneMore(hopMs, hopMs, n - 1);
      MergeOneMore(Series(hopMs, hopMs, n - 1), Change(hopMs + (n - 1) * hopMs, RuleA), hopMs);
      SeriesOneMore(hopMs, 2 * hopMs, m);
      if m > 0 {
        SeriesOneMore(hopMs, 2 * hopMs, m - 1);
      }
      if n % 2 == 1 {
        OddMember(hopMs, m);
        LastGap(hopMs, m);
      } else {
        EvenGap(hopMs, m);
      }
    }
  }

  lemma MergeNothing(hopMs: int)
    ensures Merge([], hopMs) == []
  {
  }

  lemma SeriesEmpty(hopMs: int)
    ensures Series(hopMs, hopMs, 0) == [] && Series(hopMs, 2 * hopMs, 0) == []
  {
  }

  lemma OddMember(hopMs: int, m: nat)
    ensures hopMs + (2 * m) * hopMs == hopMs + m * (2 * hopMs)
  {
  }

  lemma LastGap(hopMs: int, m: nat)
    ensures hopMs + m * (2 * hopMs) - (hopMs + (m - 1) * (2 * hopMs)) == 2 * hopMs
  {
    assert m * (2 * hopMs) == (m - 1) * (2 * hopMs) + 2 * hopMs;
  }

  lemma EvenGap(hopMs: int, m: nat)
    requires m > 0
    ensures hopMs + (2 * m - 1) * hopMs - (hopMs + (m - 1) * (2 * hopMs)) == hopMs
  {
    assert (2 * m - 1) * hopMs == (m - 1) * (2 * hopMs) + hopMs;
  }

  /** A signal in which every window differs from the one before it. */
  predicate AllDips(c: Config, s: Signals) {
    && |s.cosPrev| == |s.cosRef| > 2 && s.cosPrev[0].None?
    && forall i :: 0 < i < |s.cosPrev| ==> IsDip(c, s.cosPrev, i)
  }

  lemma {:induction false} AllDipsAccepted(c: Config, s: Signals, n: nat)
    requires ValidConfig(c) && AllDips(c, s) && 1 <= n <= |s.cosPrev|
    ensures AcceptedDips(c, s, n) == Series(c.hopMs, c.hopMs, n - 1)
  {
    hide Series;
    if n == 1 {
      SeriesEmpty(c.hopMs);
      assert AcceptedDips(c, s, 0) == [];
    } else {
      AllDipsAccepted(c, s, n - 1);
      SeriesOneMore(c.hopMs, c.hopMs, n - 2);
      assert HasConsecutiveDip(c, s.cosPrev, n - 1) by {
        assert n - 1 > 1 ==> IsDip(c, s.cosPrev, n - 2);
        assert n - 1 == 1 ==> IsDip(c, s.cosPrev, 2);
      }
      assert (n - 1) * c.hopMs == c.hopMs + (n - 2) * c.hopMs;
    }
  }

  /** Two points two hops apart are neighbours. */
  lemma NeighboursAt(points: seq<Change>, hopMs: int, limit: int, i: nat, j: nat)
    requires hopMs > 0 && Spaced(points, hopMs, 2, limit) && i < |points| && j < |points|
    requires points[j].startMs - points[i].startMs == 2 * hopMs
    ensures j == i + 1
  {
    hide IsMultiple;
    assert i + 1 < |points| ==> points[i + 1].startMs - points[i].startMs >= 2 * hopMs;
    if j <= i {
      SpacedApart(points, hopMs, limit, j, i);
    } else if j > i + 1 {
      SpacedApart(points, hopMs, limit, i + 1, j);
    }
  }

  lemma {:induction false} SpacedApart(points: seq<Change>, hopMs: int, limit: int, i: nat, j: nat)
    requires hopMs > 0 && Spaced(points, hopMs, 2, limit) && i <= j < |points|
    ensures points[i].startMs <= points[j].startMs && (i < j ==> points[j].startMs - points[i].startMs >= 2 * hopMs)
    decreases j - i
  {
    hide IsMultiple;
    if i < j {
      SpacedApart(points, hopMs, limit, i, j - 1);
    }
  }

  /** Two embeddings, `v` and `-v`, and their cosine. */
  function SignCosine(x: bool, y: bool): (r: real)
    ensures -1.0 <= r <= 1.0 && (x == y ==> r == 1.0)
  {
    if x == y then 1.0 else -1.0
  }

  /** A voice that turns into its opposite with every hop. */
  function Flipping(c: Config): (int, int) -> bool {
    (from: int, to: int) => c.hopMs > 0 && (from / c.hopMs) % 2 == 0
  }

  lemma FlipsAt(c: Config, i: nat)
    requires ValidConfig(c) && i > 0
    ensures PrevAt(c, Flipping(c), SignCosine, i) == Some(-1.0)
  {
    DivideExact(i, c.hopMs);
    DivideExact(i - 1, c.hopMs);
  }

  /** The signals of an utterance whose windows all differ. */
  lemma DifferentWindows(c: Config, totalMs: int) returns (s: Signals)
    requires ValidConfig(c) && c.tFire > -1.0 && WindowCount(c, totalMs) > 2
    ensures s == SignalsOf(c, WindowCount(c, totalMs), Flipping(c), SignCosine, None)
    ensures AllDips(c, s) && |s.cosPrev| == WindowCount(c, totalMs)
    ensures Dips(c, s.cosPrev, |s.cosPrev|) != []
    ensures Merge(AcceptedDips(c, s, |s.cosPrev|), c.hopMs) == Series(c.hopMs, 2 * c.hopMs, |s.cosPrev| / 2)
  {
    hide Merge, Series, AcceptedDips, PrevAt;
    var n := WindowCount(c, totalMs);
    s := SignalsOf(c, n, Flipping(c), SignCosine, None);
    assert s.cosPrev[0].None? by {
      assert s.cosPrev[0] == PrevAt(c, Flipping(c), SignCosine, 0);
      FirstHasNoNeighbour(c, Flipping(c), SignCosine);
    }
    forall i | 0 < i < n
      ensures IsDip(c, s.cosPrev, i)
    {
      FlipsAt(c, i);
    }
    AllDipsAccepted(c, s, n);
    MergeSeries(c.hopMs, n - 1);
    DipsEmpty(c, s.cosPrev, n);
    assert IsDip(c, s.cosPrev, 1);
  }

  /** An utterance long enough that two kept changes have `min_turn_ms` of room on both sides. */
  lemma LongEnough(c: Config) returns (totalMs: int, i: nat)
    requires ValidConfig(c)
    ensures WindowCount(c, totalMs) > 2 && totalMs > 0 && i + 1 < WindowCount(c, totalMs) / 2
    ensures c.hopMs + i * (2 * c.hopMs) >= c.minTurnMs
    ensures totalMs - (c.hopMs + (i + 1) * (2 * c.hopMs)) >= c.minTurnMs
  {
    i := c.minTurnMs;
    var n := 3 * i + 4;
    totalMs := c.windowMs + (n - 1) * c.hopMs;
    DivideExact(n - 1, c.hopMs);
    MulMonotone(0, n - 1, c.hopMs);
    MulMonotone(1, c.hopMs, i);
    assert i * (2 * c.hopMs) == 2 * (i * c.hopMs);
    assert (i + 1) * (2 * c.hopMs) == 2 * (i * c.hopMs) + 2 * c.hopMs;
    assert (n - 1) * c.hopMs == 3 * (i * c.hopMs) + 3 * c.hopMs;
    assert c.hopMs * i == i * c.hopMs;
  }

  lemma FirstHasNoNeighbour<V>(c: Config, embed: (int, int) -> V, cosine: (V, V) -> real)
    ensures PrevAt(c, embed, cosine, 0) == None
  {
  }

  /** The bound of `TurnsReachMinimum` is exact: as soon as `min_turn_ms` exceeds two hops and
      some cosine is a dip, some utterance is cut into a turn of only two hops. */
  lemma ShortTurnExists(c: Config) returns (totalMs: int, k: nat)
    requires ValidConfig(c) && c.minTurnMs > 2 * c.hopMs && c.tFire > -1.0
    ensures totalMs > 0
    ensures var turns := Turns(c, totalMs, Flipping(c), SignCosine, None, None);
            k < |turns| && |turns| > 1 && turns[k].endMs - turns[k].startMs == 2 * c.hopMs < c.minTurnMs
  {
    hide Merge, Series, AcceptedDips, Usable, Spaced, IsMultiple, WindowCount, Dips, SpansBetween;
    var i;
    totalMs, i := LongEnough(c);
    var s := DifferentWindows(c, totalMs);
    ChangePointsSpaced(c, s, totalMs);
    var points := ChangePoints(c, s, totalMs);
    var x, y := SeriesPair(c, s, totalMs, i);
    assert x in points && y in points;
    var a :| 0 <= a < |points| && points[a] == x;
    var b :| 0 <= b < |points| && points[b] == y;
    NeighboursAt(points, c.hopMs, |s.cosPrev|, a, b);
    SpanAt(points, totalMs, b);
    k := b;
  }

  /** The other half: with a firing threshold of at most minus one no cosine is a dip, and an
      utterance is never cut. */
  lemma NoDipNoCut<V(!new)>(c: Config, totalMs: int, embed: (int, int) -> V, cosine: (V, V) -> real,
                            reference: Option<V>, whole: Option<V>)
    requires ValidConfig(c) && c.tFire <= -1.0 && forall x, y :: cosine(x, y) >= -1.0
    ensures |Turns(c, totalMs, embed, cosine, reference, whole)| == 1
  {
    hide ChangePoints, SpansBetween, WindowCount;
    var n := WindowCount(c, totalMs);
    var s := SignalsOf(c, n, embed, cosine, reference);
    forall i | 0 <= i < n
      ensures !IsDip(c, s.cosPrev, i)
    {
      assert s.cosPrev[i] == PrevAt(c, embed, cosine, i);
    }
    DipsEmpty(c, s.cosPrev, n);
  }

  lemma SeriesPair(c: Config, s: Signals, totalMs: int, i: nat) returns (x: Change, y: Change)
    requires ValidConfig(c) && 0 < |s.cosPrev| == |s.cosRef| && s.cosPrev[0].None? && i + 1 < |s.cosPrev| / 2
    requires Merge(AcceptedDips(c, s, |s.cosPrev|), c.hopMs) == Series(c.hopMs, 2 * c.hopMs, |s.cosPrev| / 2)
    requires c.hopMs + i * (2 * c.hopMs) >= c.minTurnMs
    requires totalMs - (c.hopMs + (i + 1) * (2 * c.hopMs)) >= c.minTurnMs
    ensures x in ChangePoints(c, s, totalMs) && y in ChangePoints(c, s, totalMs) && y.startMs - x.startMs == 2 * c.hopMs
  {
    hide Merge, AcceptedDips, Usable, Spaced;
    var merged := Series(c.hopMs, 2 * c.hopMs, |s.cosPrev| / 2);
    AcceptedSpaced(c, s, |s.cosPrev|);
    MergeSpaced(AcceptedDips(c, s, |s.cosPrev|), c.hopMs, |s.cosPrev|);
    x, y := merged[i], merged[i + 1];
    UsableMembers(merged, totalMs, c.minTurnMs, x);
    UsableMembers(merged, totalMs, c.minTurnMs, y);
    assert (i + 1) * (2 * c.hopMs) == i * (2 * c.hopMs) + 2 * c.hopMs;
    assert x in merged && y in merged;
  }

  // ----- the splitter -----

  class SpeakerTurnSplitter {
    const config: Config
    var lastMetrics: Option<SplitMetrics>

    constructor (c: Config)
      requires ValidConfig(c)
      ensures config == c && lastMetrics == None
    {
      config := c;
      lastMetrics := None;
    }

    /** Impossible parameters are refused. */
    static method Create(c: Config) returns (r: Result<SpeakerTurnSplitter, ConfigError>)
      ensures r.Success? <==> ValidConfig(c)
      ensures r == Failure(WindowOrHop) <==> c.windowMs <= 0 || c.hopMs <= 0 || c.hopMs > c.windowMs
      ensures r == Failure(NegativeMinimum) <==> 0 < c.hopMs <= c.windowMs && c.minTurnMs < 0
      ensures r.Success? ==> fresh(r.value) && r.value.config == c
    {
      if c.windowMs <= 0 || c.hopMs <= 0 || c.hopMs > c.windowMs {
        return Failure(WindowOrHop);
      }
      if c.minTurnMs < 0 {
        return Failure(NegativeMinimum);
      }
      var splitter := new SpeakerTurnSplitter(c);
      return Success(splitter);
    }

    /** One embedding a window, compared with the one before it and with the reference. */
    method EmbedWindows<V>(n: nat, embed: (int, int) -> V, cosine: (V, V) -> real, reference: Option<V>)
      returns (s: Signals, embedded: nat)
      ensures s == SignalsOf(config, n, embed, cosine, reference) && embedded == n
    {
      hide WindowVector;
      var cosPrev: seq<Option<real>>, cosRef: seq<Option<real>> := [], [];
      var previous: Option<V> := None;
      embedded := 0;
      while embedded < n
        invariant embedded <= n && |cosPrev| == |cosRef| == embedded
        invariant previous == if embedded == 0 then None else Some(WindowVector(config, embed, embedded - 1))
        invariant forall i :: 0 <= i < embedded ==> cosPrev[i] == PrevAt(config, embed, cosine, i)
        invariant forall i :: 0 <= i < embedded ==> cosRef[i] == RefAt(config, embed, cosine, reference, i)
      {
        var vector := WindowVector(config, embed, embedded);
        cosPrev := cosPrev + [if previous.None? then None else Some(cosine(previous.value, vector))];
        cosRef := cosRef + [if reference.None? then None else Some(cosine(reference.value, vector))];
        previous := Some(vector);
        embedded := embedded + 1;
      }
      s := Signals(cosPrev, cosRef);
    }

    /** The dips that a rule accepts. */
    method AcceptDips(s: Signals) returns (accepted: seq<Change>)
      requires |s.cosPrev| == |s.cosRef|
      ensures accepted == AcceptedDips(config, s, |s.cosPrev|)
    {
      hide RuleFor;
      accepted := [];
      var position := 0;
      while position < |s.cosPrev|
        invariant position <= |s.cosPrev| && accepted == AcceptedDips(config, s, position)
      {
        if IsDip(config, s.cosPrev, position) {
          var rule := RuleFor(config, s, position);
          if rule.Some? {
            accepted := accepted + [Change(position * config.hopMs, rule.value)];
          }
        }
        position := position + 1;
      }
    }

    method MergeNeighbours(accepted: seq<Change>) returns (merged: seq<Change>)
      ensures merged == Merge(accepted, config.hopMs)
    {
      hide Merge;
      MergeNothing(config.hopMs);
      merged := [];
      var i := 0;
      assert accepted[..0] == [];
      while i < |accepted|
        invariant i <= |accepted| && merged == Merge(accepted[..i], config.hopMs)
      {
        MergeOneMore(accepted[..i], accepted[i], config.hopMs);
        assert accepted[..i + 1] == accepted[..i] + [accepted[i]];
        if !(merged != [] && accepted[i].startMs - merged[|merged| - 1].startMs <= config.hopMs) {
          merged := merged + [accepted[i]];
        }
        i := i + 1;
      }
      assert accepted[..|accepted|] == accepted;
    }

    method KeepUsable(merged: seq<Change>, totalMs: int) returns (usable: seq<Change>)
      ensures usable == Usable(merged, totalMs, config.minTurnMs)
    {
      usable := [];
      var i := 0;
      assert merged[..0] == [];
      while i < |merged|
        invariant i <= |merged| && usable == Usable(merged[..i], totalMs, config.minTurnMs)
      {
        assert merged[..i + 1][..i] == merged[..i];
        if merged[i].startMs >= config.minTurnMs && totalMs - merged[i].startMs >= config.minTurnMs {
          usable := usable + [merged[i]];
        }
        i := i + 1;
      }
      assert merged[..|merged|] == merged;
    }

    method CutAt(points: seq<Change>, totalMs: int) returns (spans: seq<TurnSpan>)
      ensures spans == SpansBetween(points, totalMs)
    {
      spans := [];
      var cursor := 0;
      var i := 0;
      while i < |points|
        invariant i <= |points| && |spans| == i
        invariant cursor == if i == 0 then 0 else points[i - 1].startMs
        invariant forall k :: 0 <= k < i ==> spans[k] == SpansBetween(points, totalMs)[k]
      {
        spans := spans + [TurnSpan(cursor, points[i].startMs, false)];
        cursor := points[i].startMs;
        i := i + 1;
      }
      spans := spans + [TurnSpan(cursor, totalMs, false)];
    }

    /** The windowed stage, for `n` windows and `before` embeddings already paid for. */
    method SplitWindows<V>(n: nat, totalMs: int, embed: (int, int) -> V, cosine: (V, V) -> real, reference: Option<V>,
                           wholeCosRef: Option<real>, before: nat) returns (spans: seq<TurnSpan>)
      modifies this
      ensures var s := SignalsOf(config, n, embed, cosine, reference);
              spans == if Dips(config, s.cosPrev, n) == [] then [TurnSpan(0, totalMs, false)]
                       else if ChangePoints(config, s, totalMs) == [] then [TurnSpan(0, totalMs, true)]
                       else SpansBetween(ChangePoints(config, s, totalMs), totalMs)
      ensures lastMetrics
              == Some(WindowedMetrics(config, SignalsOf(config, n, embed, cosine, reference), totalMs, wholeCosRef,
                                      before + n))
    {
      hide Dips, Merge, AcceptedDips, Usable, PrevAt, RefAt, SpansBetween, Strongest;
      var s, count := EmbedWindows(n, embed, cosine, reference);
      var embedded := before + count;
      var dips := Dips(config, s.cosPrev, n);
      var dipStarts := DipStarts(config, dips);
      if dips == [] {
        lastMetrics := Some(SplitMetrics(Windowed, n, NoDip, wholeCosRef, [], [], embedded));
        return [TurnSpan(0, totalMs, false)];
      }
      var accepted := AcceptDips(s);
      var merged := MergeNeighbours(accepted);
      var usable := KeepUsable(merged, totalMs);
      if usable == [] {
        var reason := if merged != [] then MinTurn else NoRoleSupport;
        lastMetrics := Some(SplitMetrics(Windowed, n, reason, wholeCosRef, dipStarts, Starts(merged), embedded));
        return [TurnSpan(0, totalMs, true)];
      }
      spans := CutAt(usable, totalMs);
      lastMetrics := Some(SplitMetrics(Windowed, n, Strongest(usable), wholeCosRef, dipStarts, Starts(usable),
                                       embedded));
    }

    /** The turns of an utterance, and what finding them cost: at most one embedding a window
        and one for the whole utterance. */
    method Split<V>(totalMs: int, embed: (int, int) -> V, cosine: (V, V) -> real, reference: Option<V>,
                    whole: Option<V>) returns (spans: seq<TurnSpan>)
      requires ValidConfig(config)
      modifies this
      ensures spans == Turns(config, totalMs, embed, cosine, reference, whole)
      ensures lastMetrics == Some(MetricsOf(config, totalMs, embed, cosine, reference, whole))
    {
      hide ChangePoints, Dips, WindowCount, PrevAt, RefAt, SpansBetween, WindowedMetrics;
      if totalMs <= 0 {
        lastMetrics := Some(SplitMetrics(WholeUtterance, 0, TooShort, None, [], [], 0));
        return [TurnSpan(0, if totalMs > 0 then totalMs else 0, true)];
      }
      var embedded := 0;
      var wholeCosRef: Option<real> := None;
      if reference.Some? {
        var wholeVector: V := if whole.None? then embed(0, totalMs) else whole.value;
        if whole.None? {
          embedded := embedded + 1;
        }
        wholeCosRef := Some(cosine(reference.value, wholeVector));
        if wholeCosRef.value >= config.bandHigh || wholeCosRef.value <= config.bandLow {
          lastMetrics := Some(SplitMetrics(WholeUtterance, 0, SingleSpeaker, wholeCosRef, [], [], embedded));
          return [TurnSpan(0, totalMs, false)];
        }
      }
      var n := WindowCount(config, totalMs);
      if n < 2 {
        lastMetrics := Some(SplitMetrics(Windowed, n, TooShort, wholeCosRef, [], [], embedded));
        return [TurnSpan(0, totalMs, true)];
      }
      spans := SplitWindows(n, totalMs, embed, cosine, reference, wholeCosRef, embedded);
    }
  }

  /** Where the turns after the first one start. */
  function InnerStarts(spans: seq<TurnSpan>): seq<int> {
    seq(if spans == [] then 0 else |spans| - 1, k requires 0 <= k < |spans| - 1 => spans[k + 1].startMs)
  }

  lemma StartsAreInner(points: seq<Change>, totalMs: int)
    ensures InnerStarts(SpansBetween(points, totalMs)) == Starts(points)
    ensures |SpansBetween(points, totalMs)| == |points| + 1
  {
  }

  /** The reported reason tells which of the three outcomes a call had, the reported change
      points are where the later turns start, and a call costs at most one embedding a
      window and one for the whole utterance. */
  lemma MetricsExplainTurns<V>(c: Config, totalMs: int, embed: (int, int) -> V, cosine: (V, V) -> real,
                               reference: Option<V>, whole: Option<V>)
    requires ValidConfig(c)
    ensures var turns := Turns(c, totalMs, embed, cosine, reference, whole);
            var m := MetricsOf(c, totalMs, embed, cosine, reference, whole);
            && (m.reason in {SingleSpeaker, NoDip} <==> turns == [TurnSpan(0, totalMs, false)])
            && (m.reason in {TooShort, NoRoleSupport, MinTurn} <==> |turns| == 1 && turns[0].ambiguous)
            && (m.reason in {RuleA, DeepDip, RuleB} <==> |turns| > 1)
            && (|turns| > 1 ==> m.changePointsMs == InnerStarts(turns))
            && (m.reason == SingleSpeaker <==> m.stage == WholeUtterance && totalMs > 0)
            && m.embeddedWindows <= m.windows + 1 && m.windows <= WindowCount(c, totalMs)
            && (whole.Some? || reference.None? ==> m.embeddedWindows <= m.windows)
  {
    hide ChangePoints, Dips, SpansBetween, InnerStarts, PrevAt, RefAt, Merge, AcceptedDips, WindowCount;
    var n := WindowCount(c, totalMs);
    var s := SignalsOf(c, n, embed, cosine, reference);
    StartsAreInner(ChangePoints(c, s, totalMs), totalMs);
    SpanAt(ChangePoints(c, s, totalMs), totalMs, 0);
  }
}

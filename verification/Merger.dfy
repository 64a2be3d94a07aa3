/** merge_adjacent of linux/backend/moss_worker/merger.py: what two windows say about their
    overlap becomes one list. Of two utterances that are the same speech the one further from
    the edges of its window stays, and where they differ it carries the other along. */
module Merger {
  import opened Wrappers
  import opened Windowing
  import opened Sorting
  import opened Segments
  import opened Matching

  // ----- speech, counted utterance by utterance -----

  /** An utterance itself: everything but its standing in a merge. */
  function Core(s: Segment): Segment { s.(mergeStatus := Primary, alternate := None) }

  /** How often the utterance `x` occurs in `s` and its alternates, transitively. */
  function Speech(s: Segment, x: Segment): nat {
    (if Core(s) == x then 1 else 0) + if s.alternate.Some? then Speech(s.alternate.value, x) else 0
  }

  function AllSpeech(ss: seq<Segment>, x: Segment): nat {
    if ss == [] then 0 else Speech(ss[0], x) + AllSpeech(ss[1..], x)
  }

  // ----- which of two matched utterances is kept -----

  datatype Quality = Quality(edgeDistance: int, valid: bool, conflicts: nat, owner: bool)

  predicate BoolAtLeast(a: bool, b: bool) { a || !b }

  /** Python's tuple comparison of (edge_distance, valid, -conflicts, owner). */
  predicate AtLeast(a: Quality, b: Quality) {
    a.edgeDistance > b.edgeDistance
    || (a.edgeDistance == b.edgeDistance
        && ((a.valid && !b.valid)
            || (a.valid == b.valid
                && (a.conflicts < b.conflicts || (a.conflicts == b.conflicts && BoolAtLeast(a.owner, b.owner))))))
  }

  /** Utterances of the same window that overlap `s`, other than those at `i` and `j`. */
  function Conflicts(all: seq<Segment>, s: Segment, i: nat, j: nat, n: nat): nat
    requires n <= |all|
  {
    if n == 0 then 0
    else
      Conflicts(all, s, i, j, n - 1)
      + if n - 1 != i && n - 1 != j && all[n - 1].windowId == s.windowId && Overlap(s, all[n - 1]) then 1 else 0
  }

  /** How far an utterance keeps from the edges of the window it was heard in; one that the
      window cuts off keeps no distance. */
  function EdgeDistance(s: Segment, window: WindowSpec): int {
    MinInt(s.startMs - window.startMs, window.endMs - s.endMs)
  }

  function QualityOf(all: seq<Segment>, s: Segment, i: nat, j: nat, window: WindowSpec, doubledMidpoint: int,
                     isCurrent: bool): Quality {
    Quality(EdgeDistance(s, window),
            s.parseStatus == Valid,
            Conflicts(all, s, i, j, |all|),
            (s.startMs + s.endMs >= doubledMidpoint) == isCurrent)
  }

  // ----- one pair -----

  /** The same speech: the utterances share at least half of the longer one. */
  predicate Same(a: Segment, b: Segment) {
    2 * (MinInt(a.endMs, b.endMs) - MaxInt(a.startMs, b.startMs)) >= MaxInt(a.endMs - a.startMs, b.endMs - b.startMs)
  }

  /** The two utterances disagree in text or speaker. */
  predicate Disagree(a: Segment, b: Segment, tm: TextModel) {
    tm.normalize(a.text) != tm.normalize(b.text) || a.globalSpeaker != b.globalSpeaker
  }

  /** A decided pair: the kept utterance and the other one. */
  datatype Decision = Decision(primary: Segment, other: Segment)

  function Decide(previous: seq<Segment>, current: seq<Segment>, previousWindow: WindowSpec, currentWindow: WindowSpec,
                  m: Match): Decision
    requires m.left < |previous| && m.right < |current|
  {
    var a, b := previous[m.left], current[m.right];
    var all := previous + current;
    var i, j := m.left, |previous| + m.right;
    var doubled := MaxInt(previousWindow.startMs, currentWindow.startMs)
      + MinInt(previousWindow.endMs, currentWindow.endMs);
    if AtLeast(QualityOf(all, a, i, j, previousWindow, doubled, false),
               QualityOf(all, b, i, j, currentWindow, doubled, true))
    then Decision(a, b) else Decision(b, a)
  }

  /** The positions of the utterances of the same window that overlap `s`, without the pair's own. */
  function Rivals(all: seq<Segment>, s: Segment, i: nat, j: nat, n: nat): set<nat>
    requires n <= |all|
  {
    set k: nat | k < n && k != i && k != j && all[k].windowId == s.windowId && Overlap(s, all[k])
  }

  lemma {:induction false} ConflictsCount(all: seq<Segment>, s: Segment, i: nat, j: nat, n: nat)
    requires n <= |all|
    ensures Conflicts(all, s, i, j, n) == |Rivals(all, s, i, j, n)|
  {
    hide Overlap;
    if n > 0 {
      ConflictsCount(all, s, i, j, n - 1);
      var before, rivals := Rivals(all, s, i, j, n - 1), Rivals(all, s, i, j, n);
      assert rivals == if n - 1 != i && n - 1 != j && all[n - 1].windowId == s.windowId && Overlap(s, all[n - 1])
                       then before + {n - 1} else before;
    }
  }

  /** An utterance whose middle lies in the first half of the overlap. */
  predicate InFirstHalf(s: Segment, previousWindow: WindowSpec, currentWindow: WindowSpec) {
    s.startMs + s.endMs
    < MaxInt(previousWindow.startMs, currentWindow.startMs) + MinInt(previousWindow.endMs, currentWindow.endMs)
  }

  /** Which of a pair is kept, tie by tie: the one further from its window's edges, the one that
      was parsed without a repair, the one with fewer rivals in its window; and where nothing
      tells them apart, the later window's only if both lie in the second half of the overlap. */
  lemma KeptBecause(previous: seq<Segment>, current: seq<Segment>, previousWindow: WindowSpec,
                    currentWindow: WindowSpec, m: Match)
    requires m.left < |previous| && m.right < |current|
    ensures var (a, b) := (previous[m.left], current[m.right]);
            var (all, i, j) := (previous + current, m.left, |previous| + m.right);
            var d := Decide(previous, current, previousWindow, currentWindow, m);
            var (near, far) := (EdgeDistance(a, previousWindow), EdgeDistance(b, currentWindow));
            var (own, other) := (|Rivals(all, a, i, j, |all|)|, |Rivals(all, b, i, j, |all|)|);
            && (near > far ==> d == Decision(a, b)) && (near < far ==> d == Decision(b, a))
            && (near == far ==>
                  && (a.parseStatus == Valid && b.parseStatus != Valid ==> d == Decision(a, b))
                  && (a.parseStatus != Valid && b.parseStatus == Valid ==> d == Decision(b, a))
                  && ((a.parseStatus == Valid) == (b.parseStatus == Valid) ==>
                        && (own < other ==> d == Decision(a, b)) && (own > other ==> d == Decision(b, a))
                        && (own == other ==>
                              d == if InFirstHalf(a, previousWindow, currentWindow)
                                      || InFirstHalf(b, previousWindow, currentWindow)
                                   then Decision(a, b) else Decision(b, a))))
  {
    hide EdgeDistance, Conflicts, Rivals;
    var all := previous + current;
    ConflictsCount(all, previous[m.left], m.left, |previous| + m.right, |all|);
    ConflictsCount(all, current[m.right], m.left, |previous| + m.right, |all|);
  }

  function Resolve(d: Decision, tm: TextModel): Segment {
    if Disagree(d.primary, d.other, tm) then d.primary.(mergeStatus := Conflict, alternate := Some(d.other))
      else d.primary
  }

  /** The duplicate that an agreeing pair drops: the other utterance itself. */
  function Dropped(d: Decision, tm: TextModel, x: Segment): nat {
    if !Disagree(d.primary, d.other, tm) && Core(d.other) == x then 1 else 0
  }

  /** What a decision has no place for: a conflict replaces the alternate that the kept
      utterance carried, and a duplicate goes together with the alternate that it carried. */
  function LostAlternate(d: Decision, tm: TextModel): Option<Segment> {
    if Disagree(d.primary, d.other, tm) then d.primary.alternate else d.other.alternate
  }

  predicate LosesAlternate(d: Decision, tm: TextModel) { LostAlternate(d, tm).Some? }

  function Lost(d: Decision, tm: TextModel, x: Segment): nat {
    if LosesAlternate(d, tm) then Speech(LostAlternate(d, tm).value, x) else 0
  }

  lemma PairSpeech(d: Decision, tm: TextModel, x: Segment)
    ensures Speech(d.primary, x) + Speech(d.other, x) == Speech(Resolve(d, tm), x) + Dropped(d, tm, x) + Lost(d, tm, x)
  {
    assert Core(Resolve(d, tm)) == Core(d.primary);
  }

  /** The pair of a decision, with the window of each: the kept utterance keeps at least the
      distance of the other. */
  ghost predicate KeepsDistance(d: Decision, previous: seq<Segment>, current: seq<Segment>,
                                previousWindow: WindowSpec, currentWindow: WindowSpec)
  {
    || (d.primary in previous && d.other in current
        && EdgeDistance(d.primary, previousWindow) >= EdgeDistance(d.other, currentWindow))
    || (d.primary in current && d.other in previous
        && EdgeDistance(d.primary, currentWindow) >= EdgeDistance(d.other, previousWindow))
  }

  // ----- the whole merge -----

  function Decisions(previous: seq<Segment>, current: seq<Segment>, previousWindow: WindowSpec,
                     currentWindow: WindowSpec, ms: seq<Match>): seq<Decision>
    requires forall p :: 0 <= p < |ms| ==> ms[p].left < |previous| && ms[p].right < |current|
  {
    if ms == [] then []
    else
      var n := |ms| - 1;
      var m := ms[n];
      Decisions(previous, current, previousWindow, currentWindow, ms[..n])
      + if Same(previous[m.left], current[m.right]) then [Decide(previous, current, previousWindow, currentWindow, m)]
        else []
  }

  /** Positions in previous + current that some decided pair takes. */
  function Taken(previous: seq<Segment>, current: seq<Segment>, ms: seq<Match>): set<nat>
    requires forall p :: 0 <= p < |ms| ==> ms[p].left < |previous| && ms[p].right < |current|
  {
    if ms == [] then {}
    else
      var n := |ms| - 1;
      Taken(previous, current, ms[..n])
      + if Same(previous[ms[n].left], current[ms[n].right]) then {ms[n].left, |previous| + ms[n].right} else {}
  }

  function Resolved(ds: seq<Decision>, tm: TextModel): seq<Segment> {
    if ds == [] then [] else Resolved(ds[..|ds| - 1], tm) + [Resolve(ds[|ds| - 1], tm)]
  }

  function Untouched(all: seq<Segment>, taken: set<nat>, n: nat): seq<Segment>
    requires n <= |all|
  {
    if n == 0 then [] else Untouched(all, taken, n - 1) + if n - 1 in taken then [] else [all[n - 1]]
  }

  /** Order by (start_ms, end_ms, window_id, segment_id). */
  predicate OutputLe(a: Segment, b: Segment) {
    a.startMs < b.startMs
    || (a.startMs == b.startMs
        && (a.endMs < b.endMs
            || (a.endMs == b.endMs
                && ((a.windowId != b.windowId && TextLe(a.windowId, b.windowId))
                    || (a.windowId == b.windowId && TextLe(a.segmentId, b.segmentId))))))
  }

  lemma OutputLeOrder(a: Segment, b: Segment, c: Segment)
    ensures OutputLe(a, b) || OutputLe(b, a)
    ensures OutputLe(a, b) && OutputLe(b, c) ==> OutputLe(a, c)
  {
    TextLeTotal(a.windowId, b.windowId);
    TextLeTotal(b.windowId, c.windowId);
    TextLeTotal(a.segmentId, b.segmentId);
    if TextLe(a.windowId, b.windowId) && TextLe(b.windowId, c.windowId) {
      TextLeTransitive(a.windowId, b.windowId, c.windowId);
    }
    if TextLe(a.segmentId, b.segmentId) && TextLe(b.segmentId, c.segmentId) {
      TextLeTransitive(a.segmentId, b.segmentId, c.segmentId);
    }
  }

  /** What one call decides: the pairs with enough overlap, and everything else. */
  function MergeDecisions(previous: seq<Segment>, current: seq<Segment>, previousWindow: Option<WindowSpec>,
                          currentWindow: WindowSpec, tm: TextModel): seq<Decision> {
    PairsSound(previous, current, previousWindow, currentWindow, true, tm);
    var ms := Pairs(previous, current, previousWindow, currentWindow, true, tm);
    if ms == [] then [] else Decisions(previous, current, previousWindow.value, currentWindow, ms)
  }

  function MergeRest(previous: seq<Segment>, current: seq<Segment>, previousWindow: Option<WindowSpec>,
                     currentWindow: WindowSpec, tm: TextModel): seq<Segment> {
    PairsSound(previous, current, previousWindow, currentWindow, true, tm);
    var taken := Taken(previous, current, Pairs(previous, current, previousWindow, currentWindow, true, tm));
    Untouched(previous + current, taken, |previous| + |current|)
  }

  function Merge(previous: seq<Segment>, current: seq<Segment>, previousWindow: Option<WindowSpec>,
                 currentWindow: WindowSpec, tm: TextModel): seq<Segment> {
    Sort(Resolved(MergeDecisions(previous, current, previousWindow, currentWindow, tm), tm)
         + MergeRest(previous, current, previousWindow, currentWindow, tm), OutputLe)
  }

  // ----- conservation -----

  lemma {:induction false} SpeechConcat(a: seq<Segment>, b: seq<Segment>, x: Segment)
    ensures AllSpeech(a + b, x) == AllSpeech(a, x) + AllSpeech(b, x)
  {
    if a == [] {
      assert a + b == b;
    } else {
      SpeechConcat(a[1..], b, x);
      assert (a + b)[1..] == a[1..] + b;
    }
  }

  lemma SpeechOfOne(s: Segment, x: Segment)
    ensures AllSpeech([s], x) == Speech(s, x)
  {
    assert [s][1..] == [];
  }

  lemma {:induction false} SpeechInserted(y: Segment, s: seq<Segment>, x: Segment)
    ensures AllSpeech(Insert(y, s, OutputLe), x) == Speech(y, x) + AllSpeech(s, x)
  {
    if s == [] || OutputLe(y, s[0]) {
      assert ([y] + s)[1..] == s;
    } else {
      SpeechInserted(y, s[1..], x);
      assert Insert(y, s, OutputLe)[1..] == Insert(y, s[1..], OutputLe);
    }
  }

  lemma {:induction false} SpeechSorted(s: seq<Segment>, x: Segment)
    ensures AllSpeech(Sort(s, OutputLe), x) == AllSpeech(s, x)
  {
    if s != [] {
      SpeechSorted(s[1..], x);
      SpeechInserted(s[0], Sort(s[1..], OutputLe), x);
    }
  }

  function RestSpeech(all: seq<Segment>, taken: set<nat>, x: Segment): nat {
    AllSpeech(Untouched(all, taken, |all|), x)
  }

  lemma {:induction false} UntouchedOneMore(all: seq<Segment>, taken: set<nat>, n: nat, x: Segment)
    requires 0 < n <= |all|
    ensures AllSpeech(Untouched(all, taken, n), x) ==
            AllSpeech(Untouched(all, taken, n - 1), x) + if n - 1 in taken then 0 else Speech(all[n - 1], x)
  {
    SpeechConcat(Untouched(all, taken, n - 1), if n - 1 in taken then [] else [all[n - 1]], x);
    SpeechOfOne(all[n - 1], x);
  }

  /** Taking one more position removes exactly its speech from the untouched part. */
  lemma {:induction false} TakeOne(all: seq<Segment>, taken: set<nat>, i: nat, n: nat, x: Segment)
    requires n <= |all| && i < |all| && i !in taken
    ensures AllSpeech(Untouched(all, taken, n), x) ==
            AllSpeech(Untouched(all, taken + {i}, n), x) + if i < n then Speech(all[i], x) else 0
  {
    if n > 0 {
      TakeOne(all, taken, i, n - 1, x);
      UntouchedOneMore(all, taken, n, x);
      UntouchedOneMore(all, taken + {i}, n, x);
    }
  }

  lemma {:induction false} UntouchedAll(all: seq<Segment>, n: nat)
    requires n <= |all|
    ensures Untouched(all, {}, n) == all[..n]
  {
    if n > 0 {
      UntouchedAll(all, n - 1);
    }
  }

  function AllDropped(ds: seq<Decision>, tm: TextModel, x: Segment): nat {
    if ds == [] then 0 else AllDropped(ds[..|ds| - 1], tm, x) + Dropped(ds[|ds| - 1], tm, x)
  }

  function AllLost(ds: seq<Decision>, tm: TextModel, x: Segment): nat {
    if ds == [] then 0 else AllLost(ds[..|ds| - 1], tm, x) + Lost(ds[|ds| - 1], tm, x)
  }

  /** All speech that decided pairs account for. */
  function DecidedSpeech(ds: seq<Decision>, tm: TextModel, x: Segment): nat {
    AllSpeech(Resolved(ds, tm), x) + AllDropped(ds, tm, x) + AllLost(ds, tm, x)
  }

  lemma DecideOneMore(ds: seq<Decision>, d: Decision, tm: TextModel, x: Segment)
    ensures DecidedSpeech(ds + [d], tm, x) == DecidedSpeech(ds, tm, x) + Speech(d.primary, x) + Speech(d.other, x)
  {
    assert (ds + [d])[..|ds|] == ds && (ds + [d])[|ds|] == d;
    PairSpeech(d, tm, x);
    SpeechConcat(Resolved(ds, tm), [Resolve(d, tm)], x);
    SpeechOfOne(Resolve(d, tm), x);
  }

  predicate Disjoint(ms: seq<Match>, previous: seq<Segment>, current: seq<Segment>) {
    && (forall p :: 0 <= p < |ms| ==> ms[p].left < |previous| && ms[p].right < |current|)
    && (forall p, q :: 0 <= p < q < |ms| ==> ms[p].left != ms[q].left && ms[p].right != ms[q].right)
  }

  lemma {:induction false} TakenOnlyByPairs(previous: seq<Segment>, current: seq<Segment>, ms: seq<Match>, i: nat)
    requires Disjoint(ms, previous, current)
    requires forall m :: m in ms ==> i != m.left && i != |previous| + m.right
    ensures i !in Taken(previous, current, ms)
  {
    if ms != [] {
      var front := ms[..|ms| - 1];
      assert forall p :: 0 <= p < |front| ==> front[p] == ms[p];
      assert ms[|ms| - 1] in ms;
      TakenOnlyByPairs(previous, current, front, i);
    }
  }

  /** The pairs take different positions; those of the current window come after the `n` of the one before. */
  predicate Apart(m: Match, k: Match, n: nat) { m.left != k.left && m.right != k.right && k.left < n && m.left < n }

  lemma FrontDisjoint(previous: seq<Segment>, current: seq<Segment>, ms: seq<Match>, front: seq<Match>, last: Match)
    requires ms == front + [last] && Disjoint(ms, previous, current)
    ensures Disjoint(front, previous, current) && last.left < |previous| && last.right < |current|
    ensures forall m :: m in front ==> Apart(m, last, |previous|)
  {
    assert forall p :: 0 <= p < |front| ==> front[p] == ms[p];
    assert ms[|front|] == last;
  }

  lemma TakenOneMore(previous: seq<Segment>, current: seq<Segment>, ms: seq<Match>)
    requires ms != [] && Disjoint(ms, previous, current) && Disjoint(ms[..|ms| - 1], previous, current)
    ensures var m := ms[|ms| - 1];
            && Taken(previous, current, ms) == Taken(previous, current, ms[..|ms| - 1])
               + (if Same(previous[m.left], current[m.right]) then {m.left, |previous| + m.right} else {})
            && m.left !in Taken(previous, current, ms[..|ms| - 1])
              && |previous| + m.right !in Taken(previous, current, ms[..|ms| - 1])
  {
    hide Same, Disjoint;
    FrontDisjoint(previous, current, ms, ms[..|ms| - 1], ms[|ms| - 1]);
    DisjointBounds(previous, current, ms);
    TakenOnlyByPairs(previous, current, ms[..|ms| - 1], ms[|ms| - 1].left);
    TakenOnlyByPairs(previous, current, ms[..|ms| - 1], |previous| + ms[|ms| - 1].right);
  }

  lemma DisjointBounds(previous: seq<Segment>, current: seq<Segment>, ms: seq<Match>)
    requires Disjoint(ms, previous, current)
    ensures forall p :: 0 <= p < |ms| ==> ms[p].left < |previous| && ms[p].right < |current|
  {
  }

  /** One more pair moves its two utterances from the untouched part to the decided part. */
  lemma TakePair(previous: seq<Segment>, current: seq<Segment>, ms: seq<Match>, x: Segment)
    requires ms != [] && Disjoint(ms, previous, current)
    ensures var n := |ms| - 1;
            var a, b := previous[ms[n].left], current[ms[n].right];
            RestSpeech(previous + current, Taken(previous, current, ms[..n]), x) ==
            RestSpeech(previous + current, Taken(previous, current, ms), x) + if Same(a, b)
              then Speech(a, x) + Speech(b, x) else 0
  {
    hide Speech, Same, Taken;
    var n := |ms| - 1;
    var all := previous + current;
    var i, j := ms[n].left, |previous| + ms[n].right;
    FrontDisjoint(previous, current, ms, ms[..n], ms[n]);
    var taken := Taken(previous, current, ms[..n]);
    TakenOneMore(previous, current, ms);
    if Same(previous[ms[n].left], current[ms[n].right]) {
      TakeOne(all, taken, i, |all|, x);
      TakeOne(all, taken + {i}, j, |all|, x);
      assert taken + {i} + {j} == Taken(previous, current, ms);
    } else {
      assert Taken(previous, current, ms) == taken;
    }
  }

  lemma DecidePair(previous: seq<Segment>, current: seq<Segment>, previousWindow: WindowSpec, currentWindow: WindowSpec,
                   ms: seq<Match>, tm: TextModel, x: Segment)
    requires ms != [] && Disjoint(ms, previous, current)
    ensures var n := |ms| - 1;
            var a, b := previous[ms[n].left], current[ms[n].right];
            DecidedSpeech(Decisions(previous, current, previousWindow, currentWindow, ms), tm, x) ==
            DecidedSpeech(Decisions(previous, current, previousWindow, currentWindow, ms[..n]), tm, x)
            + if Same(a, b) then Speech(a, x) + Speech(b, x) else 0
  {
    var n := |ms| - 1;
    var ds := Decisions(previous, current, previousWindow, currentWindow, ms[..n]);
    if Same(previous[ms[n].left], current[ms[n].right]) {
      var d := Decide(previous, current, previousWindow, currentWindow, ms[n]);
      assert Decisions(previous, current, previousWindow, currentWindow, ms) == ds + [d];
      DecideOneMore(ds, d, tm, x);
    } else {
      assert Decisions(previous, current, previousWindow, currentWindow, ms) == ds;
    }
  }

  lemma {:induction false} SpeechPartition(previous: seq<Segment>, current: seq<Segment>, previousWindow: WindowSpec,
                                           currentWindow: WindowSpec,
                                           ms: seq<Match>, tm: TextModel, x: Segment)
    requires Disjoint(ms, previous, current)
    ensures AllSpeech(previous + current, x) ==
            RestSpeech(previous + current, Taken(previous, current, ms), x)
            + DecidedSpeech(Decisions(previous, current, previousWindow, currentWindow, ms), tm, x)
    decreases |ms|
  {
    if ms == [] {
      UntouchedAll(previous + current, |previous + current|);
      assert (previous + current)[..|previous + current|] == previous + current;
    } else {
      SpeechPartition(previous, current, previousWindow, currentWindow, ms[..|ms| - 1], tm, x);
      TakePair(previous, current, ms, x);
      DecidePair(previous, current, previousWindow, currentWindow, ms, tm, x);
    }
  }

  /** Conservation of speech: every utterance of the input is in the output, as a segment
      or as an alternate, or was dropped as a duplicate, or was lost as an alternate; each of
      its occurrences is in exactly one of these places. */
  lemma SpeechConserved(previous: seq<Segment>, current: seq<Segment>, previousWindow: Option<WindowSpec>,
                        currentWindow: WindowSpec,
                        tm: TextModel, x: Segment)
    ensures var ds := MergeDecisions(previous, current, previousWindow, currentWindow, tm);
            AllSpeech(previous + current, x) ==
            AllSpeech(Merge(previous, current, previousWindow, currentWindow, tm), x) + AllDropped(ds, tm, x)
              + AllLost(ds, tm, x)
  {
    hide AllSpeech, Taken, Untouched, Pairs, AllDropped, AllLost, Resolved;
    PairsSound(previous, current, previousWindow, currentWindow, true, tm);
    var ms := Pairs(previous, current, previousWindow, currentWindow, true, tm);
    var ds := MergeDecisions(previous, current, previousWindow, currentWindow, tm);
    var rest := MergeRest(previous, current, previousWindow, currentWindow, tm);
    var window := if previousWindow.Some? then previousWindow.value else currentWindow;
    SpeechPartition(previous, current, window, currentWindow, ms, tm, x);
    assert ds == Decisions(previous, current, window, currentWindow, ms);
    SpeechConcat(Resolved(ds, tm), rest, x);
    SpeechSorted(Resolved(ds, tm) + rest, x);
  }

  lemma {:induction false} LostBy(ds: seq<Decision>, tm: TextModel, k: nat)
    requires k < |ds| && LosesAlternate(ds[k], tm)
    ensures AllLost(ds, tm, Core(LostAlternate(ds[k], tm).value)) > 0
  {
    if k < |ds| - 1 {
      assert ds[..|ds| - 1][k] == ds[k];
      LostBy(ds[..|ds| - 1], tm, k);
    }
  }

  lemma {:induction false} NothingLost(ds: seq<Decision>, tm: TextModel, x: Segment)
    requires forall k :: 0 <= k < |ds| ==> !LosesAlternate(ds[k], tm)
    ensures AllLost(ds, tm, x) == 0
  {
    if ds != [] {
      NothingLost(ds[..|ds| - 1], tm, x);
    }
  }

  /** Every utterance of the input is in the output, or was dropped as a duplicate. */
  ghost predicate Accounted(input: seq<Segment>, output: seq<Segment>, ds: seq<Decision>, tm: TextModel) {
    forall x :: AllSpeech(input, x) == AllSpeech(output, x) + AllDropped(ds, tm, x)
  }

  predicate NoneLoses(ds: seq<Decision>, tm: TextModel) {
    forall k :: 0 <= k < |ds| ==> !LosesAlternate(ds[k], tm)
  }

  lemma AccountedAt(input: seq<Segment>, output: seq<Segment>, ds: seq<Decision>, tm: TextModel, x: Segment)
    requires Accounted(input, output, ds, tm)
    ensures AllSpeech(input, x) == AllSpeech(output, x) + AllDropped(ds, tm, x)
  {
  }

  lemma LossIff(input: seq<Segment>, output: seq<Segment>, ds: seq<Decision>, tm: TextModel)
    requires forall x :: AllSpeech(input, x) == AllSpeech(output, x) + AllDropped(ds, tm, x) + AllLost(ds, tm, x)
    ensures Accounted(input, output, ds, tm) <==> NoneLoses(ds, tm)
  {
    if NoneLoses(ds, tm) {
      forall x
        ensures AllSpeech(input, x) == AllSpeech(output, x) + AllDropped(ds, tm, x)
      {
        NothingLost(ds, tm, x);
      }
    } else {
      var k :| 0 <= k < |ds| && LosesAlternate(ds[k], tm);
      LostBy(ds, tm, k);
      var x := Core(LostAlternate(ds[k], tm).value);
      assert AllSpeech(input, x) != AllSpeech(output, x) + AllDropped(ds, tm, x);
      if Accounted(input, output, ds, tm) {
        AccountedAt(input, output, ds, tm, x);
        assert false;
      }
    }
  }

  /** No speech is lost exactly when no conflict is decided in favour of an utterance that
      already carries an alternate, and no duplicate that carries one is dropped. */
  lemma NoSpeechLost(previous: seq<Segment>, current: seq<Segment>, previousWindow: Option<WindowSpec>,
                     currentWindow: WindowSpec, tm: TextModel)
    ensures var ds := MergeDecisions(previous, current, previousWindow, currentWindow, tm);
            var output := Merge(previous, current, previousWindow, currentWindow, tm);
            Accounted(previous + current, output, ds, tm) <==> NoneLoses(ds, tm)
  {
    forall x
      ensures AllSpeech(previous + current, x) ==
              AllSpeech(Merge(previous, current, previousWindow, currentWindow, tm), x)
              + AllDropped(MergeDecisions(previous, current, previousWindow, currentWindow, tm), tm, x)
              + AllLost(MergeDecisions(previous, current, previousWindow, currentWindow, tm), tm, x)
    {
      SpeechConserved(previous, current, previousWindow, currentWindow, tm, x);
    }
    LossIff(previous + current, Merge(previous, current, previousWindow, currentWindow, tm),
            MergeDecisions(previous, current, previousWindow, currentWindow, tm), tm);
  }

  /** A dropped duplicate says the same, by the same speaker, over at least half of the
      longer of the two, as the segment that is kept unchanged. */
  lemma DuplicatesAgree(previous: seq<Segment>, current: seq<Segment>, previousWindow: Option<WindowSpec>,
                        currentWindow: WindowSpec,
                        tm: TextModel, k: nat)
    requires k < |MergeDecisions(previous, current, previousWindow, currentWindow, tm)|
    ensures var d := MergeDecisions(previous, current, previousWindow, currentWindow, tm)[k];
            var differ := tm.normalize(d.primary.text) != tm.normalize(d.other.text)
                          || d.primary.globalSpeaker != d.other.globalSpeaker;
            && Same(d.primary, d.other) && 2 * Shared(d.primary, d.other) >= Longer(d.primary, d.other)
            && (Disagree(d.primary, d.other, tm) <==> differ)
            && ((d.primary in previous && d.other in current) || (d.primary in current && d.other in previous))
            && Resolve(d, tm) in Merge(previous, current, previousWindow, currentWindow, tm)
            && (!differ ==> Resolve(d, tm) == d.primary)
            && (differ ==> Resolve(d, tm).alternate == Some(d.other) && Resolve(d, tm).mergeStatus == Conflict
                           && Core(Resolve(d, tm)) == Core(d.primary))
  {
    PairsSound(previous, current, previousWindow, currentWindow, true, tm);
    var ms := Pairs(previous, current, previousWindow, currentWindow, true, tm);
    var ds := MergeDecisions(previous, current, previousWindow, currentWindow, tm);
    DecisionsSound(previous, current, previousWindow.value, currentWindow, ms, k);
    ResolvedMember(ds, tm, k);
    SortMembers(Resolved(ds, tm) + MergeRest(previous, current, previousWindow, currentWindow, tm), OutputLe,
                Resolve(ds[k], tm));
  }

  /** An utterance that its window cuts off, or nearly so, is never kept over one that keeps
      more distance: no decision of a merge clips an utterance. */
  lemma {:induction false} DecisionsComplete(previous: seq<Segment>, current: seq<Segment>, previousWindow: WindowSpec,
                                             currentWindow: WindowSpec, ms: seq<Match>, m: Match)
    requires m in ms && forall p :: 0 <= p < |ms| ==> ms[p].left < |previous| && ms[p].right < |current|
    requires Same(previous[m.left], current[m.right])
    ensures Decide(previous, current, previousWindow, currentWindow, m)
            in Decisions(previous, current, previousWindow, currentWindow, ms)
  {
    hide Same, Decide;
    var n := |ms| - 1;
    if m != ms[n] {
      assert m in ms[..n];
      DecisionsComplete(previous, current, previousWindow, currentWindow, ms[..n], m);
    }
  }

  /** A matched pair is taken for the same speech, so that one of the two is kept for both,
      exactly if they share at least half of the longer one. */
  lemma PairIsDecidedIff(previous: seq<Segment>, current: seq<Segment>, previousWindow: Option<WindowSpec>,
                         currentWindow: WindowSpec, tm: TextModel, m: Match)
    requires m in Pairs(previous, current, previousWindow, currentWindow, true, tm)
    ensures m.left < |previous| && m.right < |current|
    ensures var (a, b) := (previous[m.left], current[m.right]);
            var ds := MergeDecisions(previous, current, previousWindow, currentWindow, tm);
            Decision(a, b) in ds || Decision(b, a) in ds <==> 2 * Shared(a, b) >= Longer(a, b)
  {
    hide Pairs, Decisions;
    var ms := Pairs(previous, current, previousWindow, currentWindow, true, tm);
    PairsSound(previous, current, previousWindow, currentWindow, true, tm);
    var a, b := previous[m.left], current[m.right];
    var ds := MergeDecisions(previous, current, previousWindow, currentWindow, tm);
    if Same(a, b) {
      DecisionsComplete(previous, current, previousWindow.value, currentWindow, ms, m);
    } else if k :| 0 <= k < |ds| && (ds[k] == Decision(a, b) || ds[k] == Decision(b, a)) {
      DecisionsSound(previous, current, previousWindow.value, currentWindow, ms, k);
      assert false;
    }
  }

  lemma NothingIsClipped(previous: seq<Segment>, current: seq<Segment>, previousWindow: WindowSpec,
                         currentWindow: WindowSpec,
                         tm: TextModel, k: nat)
    requires k < |MergeDecisions(previous, current, Some(previousWindow), currentWindow, tm)|
    ensures KeepsDistance(MergeDecisions(previous, current, Some(previousWindow), currentWindow, tm)[k],
                          previous, current, previousWindow, currentWindow)
  {
    hide KeepsDistance, Pairs, Decisions;
    PairsSound(previous, current, Some(previousWindow), currentWindow, true, tm);
    var ms := Pairs(previous, current, Some(previousWindow), currentWindow, true, tm);
    DecisionsKeepDistance(previous, current, previousWindow, currentWindow, ms, k);
  }

  lemma {:induction false} DecisionsKeepDistance(previous: seq<Segment>, current: seq<Segment>,
                                                 previousWindow: WindowSpec, currentWindow: WindowSpec, ms: seq<Match>,
                                                   k: nat)
    requires forall p :: 0 <= p < |ms| ==> ms[p].left < |previous| && ms[p].right < |current|
    requires k < |Decisions(previous, current, previousWindow, currentWindow, ms)|
    ensures KeepsDistance(Decisions(previous, current, previousWindow, currentWindow, ms)[k],
                          previous, current, previousWindow, currentWindow)
  {
    hide Conflicts, KeepsDistance;
    var n := |ms| - 1;
    if k < |Decisions(previous, current, previousWindow, currentWindow, ms[..n])| {
      DecisionsKeepDistance(previous, current, previousWindow, currentWindow, ms[..n], k);
    } else {
      DecideKeepsDistance(previous, current, previousWindow, currentWindow, ms[n]);
    }
  }

  lemma DecideKeepsDistance(previous: seq<Segment>, current: seq<Segment>, previousWindow: WindowSpec,
                            currentWindow: WindowSpec, m: Match)
    requires m.left < |previous| && m.right < |current|
    ensures KeepsDistance(Decide(previous, current, previousWindow, currentWindow, m), previous, current,
                          previousWindow, currentWindow)
  {
    hide Conflicts;
  }

  /** `kept` says what `x` says, by the same speaker, over at least half of the longer of the two. */
  predicate SaysTheSame(kept: Segment, x: Segment, tm: TextModel) { Same(kept, x) && !Disagree(kept, x, tm) }

  /** Everything that is counted as dropped is said by a segment of the output. */
  lemma DroppedIsSaid(previous: seq<Segment>, current: seq<Segment>, previousWindow: Option<WindowSpec>,
                      currentWindow: WindowSpec,
                      tm: TextModel, x: Segment)
    requires AllDropped(MergeDecisions(previous, current, previousWindow, currentWindow, tm), tm, x) > 0
    ensures exists kept ::
              kept in Merge(previous, current, previousWindow, currentWindow, tm) && SaysTheSame(kept, x, tm)
  {
    hide Merge, MergeDecisions, Same, Disagree, Resolve;
    var ds := MergeDecisions(previous, current, previousWindow, currentWindow, tm);
    var k := DroppedBy(ds, tm, x);
    DuplicatesAgree(previous, current, previousWindow, currentWindow, tm, k);
    CoreSaysTheSame(ds[k].primary, ds[k].other, tm);
    assert SaysTheSame(Resolve(ds[k], tm), x, tm);
  }

  lemma CoreSaysTheSame(a: Segment, b: Segment, tm: TextModel)
    ensures (Same(a, Core(b)) <==> Same(a, b)) && (Disagree(a, Core(b), tm) <==> Disagree(a, b, tm))
  {
  }

  lemma {:induction false} DroppedBy(ds: seq<Decision>, tm: TextModel, x: Segment) returns (k: nat)
    requires AllDropped(ds, tm, x) > 0
    ensures k < |ds| && Core(ds[k].other) == x && !Disagree(ds[k].primary, ds[k].other, tm)
  {
    k := |ds| - 1;
    if Dropped(ds[k], tm, x) == 0 {
      k := DroppedBy(ds[..k], tm, x);
    }
  }

  lemma {:induction false} ResolvedMember(ds: seq<Decision>, tm: TextModel, k: nat)
    requires k < |ds|
    ensures Resolve(ds[k], tm) in Resolved(ds, tm)
  {
    if k < |ds| - 1 {
      assert ds[..|ds| - 1][k] == ds[k];
      ResolvedMember(ds[..|ds| - 1], tm, k);
    }
  }

  lemma {:induction false} DecisionsSound(previous: seq<Segment>, current: seq<Segment>, previousWindow: WindowSpec,
                                          currentWindow: WindowSpec,
                                          ms: seq<Match>, k: nat)
    requires forall p :: 0 <= p < |ms| ==> ms[p].left < |previous| && ms[p].right < |current|
    requires k < |Decisions(previous, current, previousWindow, currentWindow, ms)|
    ensures var d := Decisions(previous, current, previousWindow, currentWindow, ms)[k];
            && Same(d.primary, d.other)
            && ((d.primary in previous && d.other in current) || (d.primary in current && d.other in previous))
  {
    var n := |ms| - 1;
    if k < |Decisions(previous, current, previousWindow, currentWindow, ms[..n])| {
      DecisionsSound(previous, current, previousWindow, currentWindow, ms[..n], k);
    }
  }

  lemma {:induction false} DecisionsFrom(previous: seq<Segment>, current: seq<Segment>, previousWindow: WindowSpec,
                                         currentWindow: WindowSpec, ms: seq<Match>, k: nat) returns (p: nat)
    requires forall p :: 0 <= p < |ms| ==> ms[p].left < |previous| && ms[p].right < |current|
    requires k < |Decisions(previous, current, previousWindow, currentWindow, ms)|
    ensures p < |ms| && Same(previous[ms[p].left], current[ms[p].right])
    ensures Decisions(previous, current, previousWindow, currentWindow, ms)[k]
            == Decide(previous, current, previousWindow, currentWindow, ms[p])
  {
    hide Same, Decide;
    p := |ms| - 1;
    if k < |Decisions(previous, current, previousWindow, currentWindow, ms[..p])| {
      p := DecisionsFrom(previous, current, previousWindow, currentWindow, ms[..p], k);
    }
  }

  /** The pair that a decision is about: the same speech, of one speaker as far as labelled. */
  lemma DecidedPair(previous: seq<Segment>, current: seq<Segment>, previousWindow: Option<WindowSpec>,
                    currentWindow: WindowSpec, tm: TextModel, k: nat) returns (m: Match)
    requires k < |MergeDecisions(previous, current, previousWindow, currentWindow, tm)|
    ensures previousWindow.Some? && m.left < |previous| && m.right < |current|
    ensures Same(previous[m.left], current[m.right]) && Eligible(previous[m.left], current[m.right], true)
    ensures MergeDecisions(previous, current, previousWindow, currentWindow, tm)[k]
            == Decide(previous, current, previousWindow.value, currentWindow, m)
  {
    hide Same, Decide, Pairs, Decisions, Eligible;
    PairsSound(previous, current, previousWindow, currentWindow, true, tm);
    var ms := Pairs(previous, current, previousWindow, currentWindow, true, tm);
    var p := DecisionsFrom(previous, current, previousWindow.value, currentWindow, ms, k);
    m := ms[p];
  }

  /** A segment of the output is one of the input or what a decision made of its pair. */
  lemma MergeMember(previous: seq<Segment>, current: seq<Segment>, previousWindow: Option<WindowSpec>,
                    currentWindow: WindowSpec,
                    tm: TextModel, s: Segment)
    requires s in Merge(previous, current, previousWindow, currentWindow, tm)
    ensures var ds := MergeDecisions(previous, current, previousWindow, currentWindow, tm);
            s in previous || s in current || exists k :: 0 <= k < |ds| && s == Resolve(ds[k], tm)
  {
    hide MergeDecisions, Resolve, Taken, Resolved, Pairs, Untouched, Sort, OutputLe, Decisions;
    var ds := MergeDecisions(previous, current, previousWindow, currentWindow, tm);
    var rest := MergeRest(previous, current, previousWindow, currentWindow, tm);
    SortMembers(Resolved(ds, tm) + rest, OutputLe, s);
    if s in Resolved(ds, tm) {
      var k := ResolvedFrom(ds, tm, s);
    } else {
      PairsSound(previous, current, previousWindow, currentWindow, true, tm);
      var taken := Taken(previous, current, Pairs(previous, current, previousWindow, currentWindow, true, tm));
      UntouchedFrom(previous + current, taken, |previous| + |current|, s);
    }
  }

  lemma {:induction false} ResolvedFrom(ds: seq<Decision>, tm: TextModel, s: Segment) returns (k: nat)
    requires s in Resolved(ds, tm)
    ensures k < |ds| && s == Resolve(ds[k], tm)
  {
    k := |ds| - 1;
    if s != Resolve(ds[k], tm) {
      k := ResolvedFrom(ds[..k], tm, s);
    }
  }

  lemma {:induction false} UntouchedFrom(all: seq<Segment>, taken: set<nat>, n: nat, s: Segment)
    requires n <= |all| && s in Untouched(all, taken, n)
    ensures s in all
  {
    if s in Untouched(all, taken, n - 1) {
      UntouchedFrom(all, taken, n - 1, s);
    }
  }

  /** One utterance on each side, over at least half of the longer: the pair is decided. */
  lemma MergeOfTwo(a: Segment, b: Segment, previousWindow: WindowSpec, currentWindow: WindowSpec, tm: TextModel)
    requires var start, end := MaxInt(previousWindow.startMs, currentWindow.startMs),
             MinInt(previousWindow.endMs, currentWindow.endMs);
             start < end && Touches(a, start, end) && Touches(b, start, end)
    requires Eligible(a, b, true) && Same(a, b)
    ensures var d := Decide([a], [b], previousWindow, currentWindow, Match(0, 0, MatchScore(a, b, 1.0, tm), 1.0));
            && MergeDecisions([a], [b], Some(previousWindow), currentWindow, tm) == [d]
            && Merge([a], [b], Some(previousWindow), currentWindow, tm) == [Resolve(d, tm)]
  {
    hide MatchScore, Touches, Eligible, Same, Decide, Resolve;
    PairOfTwo(a, b, previousWindow, currentWindow, true, tm);
    var m := Match(0, 0, MatchScore(a, b, 1.0, tm), 1.0);
    var d := Decide([a], [b], previousWindow, currentWindow, m);
    assert [m][..0] == [];
    assert Decisions([a], [b], previousWindow, currentWindow, [m]) == [d];
    assert Taken([a], [b], [m]) == {0, 1};
    NothingUntouched([a] + [b]);
    ResolvedOne(d, tm);
    assert [Resolve(d, tm)] + [] == [Resolve(d, tm)];
    SortOne(Resolve(d, tm), OutputLe);
  }

  lemma NothingUntouched(all: seq<Segment>)
    requires |all| == 2
    ensures Untouched(all, {0, 1}, 2) == []
  {
    assert Untouched(all, {0, 1}, 1) == [];
  }

  lemma ResolvedOne(d: Decision, tm: TextModel)
    ensures Resolved([d], tm) == [Resolve(d, tm)]
  {
    assert [d][..0] == [];
  }

  /** Where one side is empty, nothing is decided. */
  lemma MergeOfOne(s: Segment, previousWindow: Option<WindowSpec>, currentWindow: WindowSpec, tm: TextModel)
    ensures MergeDecisions([], [s], previousWindow, currentWindow, tm) == []
            && Merge([], [s], previousWindow, currentWindow, tm) == [s]
    ensures MergeDecisions([], [], previousWindow, currentWindow, tm) == []
            && Merge([], [], previousWindow, currentWindow, tm) == []
  {
    PairsSound([], [s], previousWindow, currentWindow, true, tm);
    PairsSound([], [], previousWindow, currentWindow, true, tm);
    assert [] + [s] == [s];
    assert Untouched([s], {}, 0) == [] && Untouched([s], {}, 1) == [s];
    SortOne(s, OutputLe);
  }

  /** The output is sorted by time. */
  lemma MergeSorted(previous: seq<Segment>, current: seq<Segment>, previousWindow: Option<WindowSpec>,
                    currentWindow: WindowSpec, tm: TextModel)
    ensures Sorted(Merge(previous, current, previousWindow, currentWindow, tm), OutputLe)
  {
    forall a: Segment, b: Segment, c: Segment
      ensures OutputLe(a, b) || OutputLe(b, a)
      ensures OutputLe(a, b) && OutputLe(b, c) ==> OutputLe(a, c)
    {
      OutputLeOrder(a, b, c);
    }
    SortSorted(Resolved(MergeDecisions(previous, current, previousWindow, currentWindow, tm), tm)
               + MergeRest(previous, current, previousWindow, currentWindow, tm), OutputLe);
  }

  method ResolvePairs(previous: seq<Segment>, current: seq<Segment>, previousWindow: WindowSpec,
                      currentWindow: WindowSpec,
                      pairs: seq<Match>, tm: TextModel) returns (output: seq<Segment>, matched: set<nat>)
    requires forall p :: 0 <= p < |pairs| ==> pairs[p].left < |previous| && pairs[p].right < |current|
    ensures output == Resolved(Decisions(previous, current, previousWindow, currentWindow, pairs), tm)
    ensures matched == Taken(previous, current, pairs)
  {
    output, matched := [], {};
    ghost var ds: seq<Decision> := [];
    for k := 0 to |pairs|
      invariant ds == Decisions(previous, current, previousWindow, currentWindow, pairs[..k])
      invariant output == Resolved(ds, tm) && matched == Taken(previous, current, pairs[..k])
    {
      var m := pairs[k];
      assert pairs[..k + 1][..k] == pairs[..k] && pairs[..k + 1][k] == m;
      if !Same(previous[m.left], current[m.right]) {
        continue;
      }
      var d := Decide(previous, current, previousWindow, currentWindow, m);
      assert (ds + [d])[..|ds|] == ds;
      output, ds := output + [Resolve(d, tm)], ds + [d];
      matched := matched + {m.left, |previous| + m.right};
    }
    assert pairs[..|pairs|] == pairs;
  }

  method MergeAdjacent(previous: seq<Segment>, current: seq<Segment>, previousWindow: Option<WindowSpec>,
                       currentWindow: WindowSpec, tm: TextModel)
    returns (output: seq<Segment>)
    ensures output == Merge(previous, current, previousWindow, currentWindow, tm)
  {
    hide Pairs, Decisions, Untouched;
    PairsSound(previous, current, previousWindow, currentWindow, true, tm);
    var pairs := OverlapPairs(previous, current, previousWindow, currentWindow, true, tm);
    var matched: set<nat> := {};
    output := [];
    if pairs != [] {
      output, matched := ResolvePairs(previous, current, previousWindow.value, currentWindow, pairs, tm);
    }
    output := AppendUntouched(output, previous + current, matched);
    output := Sort(output, OutputLe);
  }

  method AppendUntouched(decided: seq<Segment>, all: seq<Segment>, matched: set<nat>) returns (output: seq<Segment>)
    ensures output == decided + Untouched(all, matched, |all|)
  {
    output := decided;
    for n := 0 to |all|
      invariant output == decided + Untouched(all, matched, n)
    {
      if n !in matched {
        output := output + [all[n]];
      }
    }
  }
}

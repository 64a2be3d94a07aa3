/** A recording of 68 minutes, on the windows that are planned for it, whose transcript loses
    an utterance: the eighth window, from minute 56 to the hour, is as short as its two
    overlaps, and what is said there meets a conflict on both sides
    (`_merge` of linux/backend/moss_worker/supervisor.py). */
module ShortWindows {
  import opened Sets
  import opened Wrappers
  import opened Windowing
  import opened RetriedPlans
  import opened Labels
  import opened Sorting
  import opened Segments
  import opened Matching
  import opened SpeakerRemap
  import opened SpeakerHistory
  import opened Merger
  import opened Recording
  import opened SecondConflicts
  import Assignment

  function Minutes(start: int, end: int, chunk: int): WindowSpec {
    WindowSpec(start * MINUTE_MS, end * MINUTE_MS, chunk, 10)
  }

  const HOUR_PLAN: seq<WindowSpec> :=
    [Minutes(0, 10, 0), Minutes(8, 18, 0), Minutes(16, 26, 0), Minutes(24, 34, 0), Minutes(32, 42, 0),
     Minutes(40, 50, 0),
     Minutes(48, 58, 0), Minutes(56, 60, 0), Minutes(58, 68, 1)]

  /** Where ten minutes always fit the context, these are the planned windows. */
  lemma HourIsPlanned(counter: Counter)
    requires forall s, e :: Fits(counter(s, e))
    ensures IsPlan(HOUR_PLAN, 68 * MINUTE_MS, counter)
  {
    forall i | 0 <= i < |HOUR_PLAN|
      ensures LadderAt(HOUR_PLAN, i, 68 * MINUTE_MS, counter)
    {
      var covered := Covered(HOUR_PLAN, i);
      assert Fits(counter(NextStart(covered, i == 0),
                          CandidateEnd(NextStart(covered, i == 0), 10, Boundary(covered, 68 * MINUTE_MS))));
    }
  }

  /** What one speaker says in a window, at half minutes, as it is parsed. */
  function Utterance(id: string, window: string, from: int, to: int, text: string): Segment {
    Segment(id, window, from * 30000, to * 30000, "S01", None, text, None, Valid, Primary, None, "")
  }

  /** What is said: the same greeting on both sides of the last two overlaps, and three versions
      of an utterance around minute 58. */
  datatype Words = Words(greeting: string, first: string, second: string, third: string)

  predicate Nearly(tm: TextModel, x: string, y: string) {
    tm.similarity(tm.normalize(x), tm.normalize(y)) as real >= 0.93
  }

  /** The versions differ, but not by much. */
  predicate Versions(tm: TextModel, w: Words) {
    && tm.similarity(tm.normalize(w.greeting), tm.normalize(w.greeting)) as real == 1.0
    && Nearly(tm, w.first, w.second) && Nearly(tm, w.second, w.third)
    && tm.normalize(w.first) != tm.normalize(w.second) && tm.normalize(w.second) != tm.normalize(w.third)
  }

  function Sixth(w: Words): seq<Segment> {
    [Utterance("6a", "6", 112, 114, w.greeting), Utterance("6b", "6", 114, 116, w.first)]
  }

  function Seventh(w: Words): seq<Segment> {
    [Utterance("7a", "7", 112, 114, w.greeting), Utterance("7b", "7", 114, 118, w.second),
     Utterance("7c", "7", 118, 120, w.greeting)]
  }

  function Eighth(w: Words): seq<Segment> {
    [Utterance("8a", "8", 116, 118, w.third), Utterance("8b", "8", 118, 120, w.greeting)]
  }

  const DIGITS := "012345678"

  /** Nothing is said before minute 56. */
  function Said(w: Words, k: nat): seq<Segment> {
    if k == 6 then Sixth(w) else if k == 7 then Seventh(w) else if k == 8 then Eighth(w) else []
  }

  function Results(w: Words): (results: seq<Part>)
    ensures |results| == 9 && forall k :: 0 <= k < 9 ==> results[k] == Part([DIGITS[k]], Said(w, k), HOUR_PLAN[k])
  {
    seq(9, k requires 0 <= k < 9 => Part([DIGITS[k]], Said(w, k), HOUR_PLAN[k]))
  }

  lemma HourIsChain()
    ensures Chain(HOUR_PLAN)
  {
    var counter: Counter := (s, e) => 0;
    HourIsPlanned(counter);
    LadderIsChain(HOUR_PLAN, 68 * MINUTE_MS, counter);
  }

  /** An unlabelled utterance of the speaker, inside its window. */
  predicate Plain(s: Segment, id: string, window: WindowSpec) {
    && s.windowId == id && s.localSpeaker == "S01" && s.globalSpeaker.None? && s.alternate.None?
    && InWindow(s, window)
  }

  lemma SaidPlain(w: Words, k: nat)
    requires k < 9
    ensures |Said(w, k)| <= 3 && InOrder(Said(w, k))
    ensures forall i :: 0 <= i < |Said(w, k)| ==> Plain(Said(w, k)[i], [DIGITS[k]], HOUR_PLAN[k])
  {
  }

  lemma DigitsDiffer(k: nat, n: nat)
    requires k < n < 9
    ensures [DIGITS[k]] != [DIGITS[n]]
  {
    assert DIGITS[k] != DIGITS[n];
  }

  /** The results are as the parser gives them and the store accepts them. */
  lemma ResultsParsed(w: Words)
    ensures StoredParts(Results(w)) && ParsedInOrder(Results(w)) && OnWindows(Results(w), HOUR_PLAN)
  {
    hide Said, Results, InWindow, InOrder;
    var results := Results(w);
    forall k | 0 <= k < 9
      ensures InOrder(results[k].segments)
      ensures forall i :: 0 <= i < |results[k].segments| ==>
                Plain(results[k].segments[i], results[k].id, results[k].window)
    {
      SaidPlain(w, k);
    }
    forall k, n | 0 <= k < n < 9
      ensures results[k].id != results[n].id
    {
      DigitsDiffer(k, n);
    }
  }

  // ----- the labels -----

  /** The segments with one label, whatever its confidence. */
  predicate AllBy(output: seq<Segment>, parsed: seq<Segment>, g: string) {
    && OnlyRelabelled(parsed, output)
    && forall i :: 0 <= i < |output| ==> output[i].globalSpeaker == Some(g)
  }

  lemma ScoreOfSame(a: Segment, b: Segment, tm: TextModel)
    requires a.startMs == b.startMs < a.endMs == b.endMs && a.text == b.text
    requires tm.similarity(tm.normalize(a.text), tm.normalize(a.text)) as real == 1.0
    ensures MatchScore(a, b, 1.0, tm) == 1.0
  {
    PerfectScoreIff(a, b, 1.0, tm);
  }

  /** Half a minute of shared time in a minute, nearly the same words, the same place. */
  lemma ScoreOfHalf(a: Segment, b: Segment, tm: TextModel)
    requires a.startMs <= b.startMs && MaxInt(a.endMs, b.endMs) - a.startMs == 120000
    requires MinInt(a.endMs, b.endMs) - b.startMs == 60000 && Nearly(tm, a.text, b.text)
    requires MinInt(a.endMs - a.startMs, b.endMs - b.startMs) == 60000
    requires MaxInt(a.endMs - a.startMs, b.endMs - b.startMs) == 120000
    ensures 0.7 <= MatchScore(a, b, 1.0, tm) < 1.0
  {
    assert Ratio(60000, 120000) == 0.5;
  }

  /** Two pairs of matches, one perfect and one of half a minute: the label is carried on. */
  lemma VoteCarries(previous: seq<Segment>, current: seq<Segment>, pw: WindowSpec, cw: WindowSpec, tm: TextModel,
                    m: Match, n: Match, g: string)
    requires var ms := Pairs(previous, current, Some(pw), cw, false, tm); ms == [m, n] || ms == [n, m]
    requires m.score + n.score >= 1.7
    requires m.left < |previous| && n.left < |previous| && m.right < |current| && n.right < |current|
    requires forall i :: 0 <= i < |previous| ==> previous[i].globalSpeaker == Some(g)
    requires g != "" && forall i :: 0 <= i < |current| ==> current[i].localSpeaker == "S01"
    ensures Assignment.Cell(MatrixOf(previous, current, Some(pw), cw, tm), "S01", g) >= 0.85
  {
    hide Pairs, Votes, Mean, VoteMatrix;
    PairsMatch(previous, current, Some(pw), cw, tm);
    TwoVotes(Pairs(previous, current, Some(pw), cw, false, tm), previous, current, "S01", g);
  }

  lemma Silent(w: Words, parts: seq<Part>, memories: seq<Memory>, tm: TextModel, n: nat)
    requires FreshRun(Results(w), parts, memories, tm, HOUR_PLAN) && n < |parts| && n < 6
    ensures parts[n].segments == []
  {
    hide FreshRun;
    PartFacts(Results(w), parts, memories, tm, HOUR_PLAN, n);
  }

  /** A labelled window: the parsed one with labels. */
  lemma Relabelled(w: Words, parts: seq<Part>, memories: seq<Memory>, tm: TextModel, n: nat)
    requires FreshRun(Results(w), parts, memories, tm, HOUR_PLAN) && n < |parts|
    ensures |parts| <= 9 && OnlyRelabelled(Results(w)[n].segments, parts[n].segments)
    ensures parts[n].window == HOUR_PLAN[n]
  {
    hide Remapped, MatrixOf, Chain, Sixth, Seventh, Eighth, StoredParts, AllNew, ParsedInOrder, OnlyRelabelled;
    assert MappedAt(Results(w), parts, memories, tm, n);
    ReadBackRelabels(Results(w)[n].segments, parts[n].segments, memories[n + 1].table);
  }

  lemma SixthBy(w: Words, parts: seq<Part>, memories: seq<Memory>, tm: TextModel) returns (g: string)
    requires FreshRun(Results(w), parts, memories, tm, HOUR_PLAN) && |parts| > 6
    ensures g != "" && AllBy(parts[6].segments, Sixth(w), g)
  {
    hide FreshRun, Origin, IsLabel;
    var results := Results(w);
    RunFacts(results, parts, memories, tm, HOUR_PLAN);
    PartFacts(results, parts, memories, tm, HOUR_PLAN, 6);
    FirstMappingAt(results, parts, memories, tm, 6);
    Relabelled(w, parts, memories, tm, 6);
    var segments := parts[6].segments;
    assert results[6].segments[0].localSpeaker == results[6].segments[1].localSpeaker;
    assert Published(segments[0], results[6].segments[0], HOUR_PLAN[6]);
    g := segments[0].globalSpeaker.value;
    assert segments[1].globalSpeaker == segments[0].globalSpeaker;
  }

  lemma AllLabels(segments: seq<Segment>, g: string)
    requires segments != [] && g != "" && forall i :: 0 <= i < |segments| ==> segments[i].globalSpeaker == Some(g)
    ensures PriorLabels(segments) == {g}
  {
    assert segments[0].globalSpeaker.value == g;
  }

  lemma AllLocals(segments: seq<Segment>, l: string)
    requires segments != [] && forall i :: 0 <= i < |segments| ==> segments[i].localSpeaker == l
    ensures Locals(segments) == {l}
  {
    assert segments[0].localSpeaker == l;
  }

  /** The label goes on to the next window. */
  lemma NextBy(w: Words, parts: seq<Part>, memories: seq<Memory>, tm: TextModel, n: nat, g: string,
               before: seq<Segment>, m: Match, k: Match)
    requires FreshRun(Results(w), parts, memories, tm, HOUR_PLAN) && 6 < n < |parts| && g != ""
    requires AllBy(parts[n - 1].segments, before, g) && before != []
    requires var ms := Pairs(parts[n - 1].segments, Results(w)[n].segments, Some(HOUR_PLAN[n - 1]), HOUR_PLAN[n], false,
                             tm);
             ms == [m, k] || ms == [k, m]
    requires m.left < |before| && k.left < |before| && m.right < |Results(w)[n].segments|
             && k.right < |Results(w)[n].segments| && m.score + k.score >= 1.7
    ensures AllBy(parts[n].segments, Results(w)[n].segments, g)
  {
    hide FreshRun, Pairs, MatrixOf, Locals, PriorLabels;
    var results := Results(w);
    RunFacts(results, parts, memories, tm, HOUR_PLAN);
    Relabelled(w, parts, memories, tm, n - 1);
    Relabelled(w, parts, memories, tm, n);
    AllLabels(parts[n - 1].segments, g);
    AllLocals(results[n].segments, "S01");
    VoteCarries(parts[n - 1].segments, results[n].segments, HOUR_PLAN[n - 1], HOUR_PLAN[n], tm, m, k, g);
    OneSpeakerStaysAt(results, parts, memories, tm, n, "S01", g);
  }

  /** The pairs of the last two overlaps, labelled on the left or on both sides. */
  lemma FirstPairs(w: Words, tm: TextModel, previous: seq<Segment>, current: seq<Segment>, sameGlobal: bool)
    requires OnlyRelabelled(Sixth(w), previous) && Versions(tm, w)
    requires if sameGlobal then OnlyRelabelled(Seventh(w), current) else current == Seventh(w)
    requires sameGlobal ==> previous[0].globalSpeaker == previous[1].globalSpeaker == current[0].globalSpeaker
                            == current[1].globalSpeaker
    ensures Pairs(previous, current, Some(HOUR_PLAN[6]), HOUR_PLAN[7], sameGlobal, tm)
            == [Match(0, 0, MatchScore(previous[0], current[0], 1.0, tm), 1.0),
                Match(1, 1, MatchScore(previous[1], current[1], 1.0, tm), 1.0)]
    ensures MatchScore(previous[0], current[0], 1.0, tm) + MatchScore(previous[1], current[1], 1.0, tm) >= 1.7
  {
    hide MatchScore, Pairs;
    PairsOfFour(previous, current, HOUR_PLAN[6], HOUR_PLAN[7], sameGlobal, tm, 0, 0);
    ScoreOfSame(previous[0], current[0], tm);
    ScoreOfHalf(previous[1], current[1], tm);
  }

  lemma SecondPairs(w: Words, tm: TextModel, previous: seq<Segment>, current: seq<Segment>)
    requires OnlyRelabelled(Seventh(w), previous) && current == Eighth(w) && Versions(tm, w)
    ensures Pairs(previous, current, Some(HOUR_PLAN[7]), HOUR_PLAN[8], false, tm)
            == [Match(2, 1, MatchScore(previous[2], current[1], 1.0, tm), 1.0),
                Match(1, 0, MatchScore(previous[1], current[0], 1.0, tm), 1.0)]
    ensures MatchScore(previous[2], current[1], 1.0, tm) + MatchScore(previous[1], current[0], 1.0, tm) >= 1.7
  {
    hide MatchScore, Pairs;
    PairsOfFour(previous, current, HOUR_PLAN[7], HOUR_PLAN[8], false, tm, 1, 0);
    ScoreOfSame(previous[2], current[1], tm);
    ScoreOfHalf(previous[1], current[0], tm);
  }

  /** The speaker keeps one label through the last three windows. */
  lemma OneLabel(w: Words, parts: seq<Part>, memories: seq<Memory>, tm: TextModel) returns (g: string)
    requires FreshRun(Results(w), parts, memories, tm, HOUR_PLAN) && |parts| == 9 && Versions(tm, w)
    ensures g != "" && AllBy(parts[6].segments, Sixth(w), g) && AllBy(parts[7].segments, Seventh(w), g)
    ensures AllBy(parts[8].segments, Eighth(w), g)
  {
    hide FreshRun, Pairs, MatchScore, Versions;
    g := SixthBy(w, parts, memories, tm);
    var a, b, c := parts[6].segments, Seventh(w), Eighth(w);
    FirstPairs(w, tm, a, b, false);
    NextBy(w, parts, memories, tm, 7, g, Sixth(w), Match(0, 0, MatchScore(a[0], b[0], 1.0, tm), 1.0),
           Match(1, 1, MatchScore(a[1], b[1], 1.0, tm), 1.0));
    var b' := parts[7].segments;
    SecondPairs(w, tm, b', c);
    NextBy(w, parts, memories, tm, 8, g, Seventh(w), Match(2, 1, MatchScore(b'[2], c[1], 1.0, tm), 1.0),
           Match(1, 0, MatchScore(b'[1], c[0], 1.0, tm), 1.0));
  }

  // ----- the merges -----

  lemma {:induction false} SilenceIsEmpty(parts: seq<Part>, n: nat, tm: TextModel)
    requires n <= |parts| && forall k :: 0 <= k < n ==> parts[k].segments == []
    ensures Transcript(parts[..n], tm) == [] && Spoken(parts[..n]) == []
  {
    hide Merge;
    if n > 0 {
      SilenceIsEmpty(parts, n - 1, tm);
      assert parts[..n][..n - 1] == parts[..n - 1];
      MergeOfNothing([], WindowBefore(parts[..n], n - 1), parts[n - 1].window, tm);
    }
  }

  /** Where nothing was said before, a window's segments are the transcript. */
  lemma MergeOfNothing(s: seq<Segment>, pw: Option<WindowSpec>, cw: WindowSpec, tm: TextModel)
    requires Sorted(s, OutputLe)
    ensures Merge([], s, pw, cw, tm) == s
  {
    hide OutputLe, Pairs, Untouched, Sorted, Sort;
    NoPairs(s, pw, cw, true, tm);
    UntouchedAll(s, |s|);
    assert [] + s == s && s[..|s|] == s;
    SortKeeps(s, OutputLe);
  }

  function Conflicting(b: Segment, a: Segment): Segment { b.(mergeStatus := Conflict, alternate := Some(a)) }

  /** The greeting says the same on both sides. */
  lemma GreetingAgrees(w: Words, tm: TextModel, a: seq<Segment>, b: seq<Segment>, g: string, m: Match)
    returns (greeting: Segment)
    requires AllBy(a, Sixth(w), g) && AllBy(b, Seventh(w), g) && m.left == 0 && m.right == 0
    ensures Same(a[0], b[0]) && (greeting == a[0] || greeting == b[0])
    ensures Resolve(Decide(a, b, HOUR_PLAN[6], HOUR_PLAN[7], m), tm) == greeting
  {
    hide QualityOf;
    greeting := Decide(a, b, HOUR_PLAN[6], HOUR_PLAN[7], m).primary;
  }

  /** The middle window keeps more distance, so its version stays and carries the first one. */
  lemma MiddleIsKept(w: Words, tm: TextModel, a: seq<Segment>, b: seq<Segment>, g: string, m: Match)
    requires AllBy(a, Sixth(w), g) && AllBy(b, Seventh(w), g) && Versions(tm, w) && m.left == 1 && m.right == 1
    ensures Same(a[1], b[1])
    ensures Resolve(Decide(a, b, HOUR_PLAN[6], HOUR_PLAN[7], m), tm) == Conflicting(b[1], a[1])
  {
    hide Conflicts;
    assert EdgeDistance(a[1], HOUR_PLAN[6]) == 0 && EdgeDistance(b[1], HOUR_PLAN[7]) == MINUTE_MS;
  }

  /** A merge of two and three utterances that decides the first two pairs. */
  lemma TwoDecisions(a: seq<Segment>, b: seq<Segment>, pw: WindowSpec, cw: WindowSpec, tm: TextModel, m: Match,
                     n: Match)
    requires |a| == 2 && |b| == 3 && Pairs(a, b, Some(pw), cw, true, tm) == [m, n]
    requires m.left == 0 && m.right == 0 && n.left == 1 && n.right == 1 && Same(a[0], b[0]) && Same(a[1], b[1])
    ensures Merge(a, b, Some(pw), cw, tm)
            == Sort([Resolve(Decide(a, b, pw, cw, m), tm), Resolve(Decide(a, b, pw, cw, n), tm), b[2]], OutputLe)
  {
    hide Pairs, Decide, Same, Resolve, Sort, OutputLe, Decisions, Taken, Untouched, Resolved;
    var d, e := Decide(a, b, pw, cw, m), Decide(a, b, pw, cw, n);
    OneMorePair(a, b, pw, cw, [], m);
    OneMorePair(a, b, pw, cw, [m], n);
    OneMoreTaken(a, b, [], m);
    OneMoreTaken(a, b, [m], n);
    assert [] + [m] == [m] && [m] + [n] == [m, n];
    assert [] + [d] == [d] && [d] + [e] == [d, e];
    assert Taken(a, b, [m, n]) == {0, 1, 2, 3};
    LastUntouched(a + b);
    assert MergeDecisions(a, b, Some(pw), cw, tm) == [d, e] && MergeRest(a, b, Some(pw), cw, tm) == [b[2]];
    ResolvedTwo(d, e, tm);
    assert [Resolve(d, tm), Resolve(e, tm)] + [b[2]] == [Resolve(d, tm), Resolve(e, tm), b[2]];
  }

  lemma OneMorePair(a: seq<Segment>, b: seq<Segment>, pw: WindowSpec, cw: WindowSpec, ms: seq<Match>, m: Match)
    requires m.left < |a| && m.right < |b| && Same(a[m.left], b[m.right])
    requires forall p :: 0 <= p < |ms| ==> ms[p].left < |a| && ms[p].right < |b|
    ensures ms == [] ==> Decisions(a, b, pw, cw, ms) == []
    ensures Decisions(a, b, pw, cw, ms + [m]) == Decisions(a, b, pw, cw, ms) + [Decide(a, b, pw, cw, m)]
  {
    hide Same, Decide, Taken;
    assert (ms + [m])[..|ms|] == ms;
  }

  lemma OneMoreTaken(a: seq<Segment>, b: seq<Segment>, ms: seq<Match>, m: Match)
    requires m.left < |a| && m.right < |b| && Same(a[m.left], b[m.right])
    requires forall p :: 0 <= p < |ms| ==> ms[p].left < |a| && ms[p].right < |b|
    ensures ms == [] ==> Taken(a, b, ms) == {}
    ensures Taken(a, b, ms + [m]) == Taken(a, b, ms) + {m.left, |a| + m.right}
  {
    hide Same, Decide, Decisions;
    assert (ms + [m])[..|ms|] == ms;
  }

  lemma ResolvedTwo(d: Decision, e: Decision, tm: TextModel)
    ensures Resolved([d, e], tm) == [Resolve(d, tm), Resolve(e, tm)]
  {
    hide Resolve;
    assert [d, e][..1] == [d];
    ResolvedOne(d, tm);
  }

  lemma LastUntouched(all: seq<Segment>)
    requires |all| == 5
    ensures Untouched(all, {0, 1, 2, 3}, 5) == [all[4]]
  {
    var taken: set<nat> := {0, 1, 2, 3};
    assert Untouched(all, taken, 1) == [] && Untouched(all, taken, 2) == [];
    assert Untouched(all, taken, 3) == [] && Untouched(all, taken, 4) == [];
  }

  /** The last overlap but one: the greeting is a duplicate, and the version of the middle
      window is kept with the first one as its alternate. */
  lemma FirstMerge(w: Words, tm: TextModel, a: seq<Segment>, b: seq<Segment>, g: string) returns (greeting: Segment)
    requires AllBy(a, Sixth(w), g) && AllBy(b, Seventh(w), g) && Versions(tm, w)
    ensures greeting == a[0] || greeting == b[0]
    ensures Merge(a, b, Some(HOUR_PLAN[6]), HOUR_PLAN[7], tm) == [greeting, Conflicting(b[1], a[1]), b[2]]
  {
    hide Pairs, MatchScore, Merge, Same, Resolve, Decide;
    FirstPairs(w, tm, a, b, true);
    var m := Match(0, 0, MatchScore(a[0], b[0], 1.0, tm), 1.0);
    var n := Match(1, 1, MatchScore(a[1], b[1], 1.0, tm), 1.0);
    greeting := GreetingAgrees(w, tm, a, b, g, m);
    MiddleIsKept(w, tm, a, b, g, n);
    TwoDecisions(a, b, HOUR_PLAN[6], HOUR_PLAN[7], tm, m, n);
    SortKeeps([greeting, Conflicting(b[1], a[1]), b[2]], OutputLe);
  }

  /** In the last overlap the third version meets the second, which carries the first. */
  lemma LastMerge(w: Words, tm: TextModel, a: seq<Segment>, b: seq<Segment>, c: seq<Segment>, g: string,
                  greeting: Segment) returns (k: nat)
    requires AllBy(a, Sixth(w), g) && AllBy(b, Seventh(w), g) && AllBy(c, Eighth(w), g) && Versions(tm, w)
    requires greeting == a[0] || greeting == b[0]
    ensures var before := [greeting, Conflicting(b[1], a[1]), b[2]];
            var ds := MergeDecisions(before, c, Some(HOUR_PLAN[7]), HOUR_PLAN[8], tm);
            && k < |ds| && ds[k] == Decision(before[1], c[0])
            && Disagree(before[1], c[0], tm) && LostAlternate(ds[k], tm) == Some(a[1])
  {
    hide Pairs, MatchScore, Conflicts, Same;
    var before := [greeting, Conflicting(b[1], a[1]), b[2]];
    PairsOfFour(before, c, HOUR_PLAN[7], HOUR_PLAN[8], true, tm, 1, 0);
    var m := Match(1, 0, MatchScore(before[1], c[0], 1.0, tm), 1.0);
    var n := Match(2, 1, MatchScore(before[2], c[1], 1.0, tm), 1.0);
    var ms := Pairs(before, c, Some(HOUR_PLAN[7]), HOUR_PLAN[8], true, tm);
    LastKept(w, tm, before[1], c[0], before, c, m);
    k := DecisionOf(before, c, HOUR_PLAN[7], HOUR_PLAN[8], ms, if ms[0] == m then 0 else 1);
  }

  lemma LastKept(w: Words, tm: TextModel, b: Segment, c: Segment, before: seq<Segment>, current: seq<Segment>, m: Match)
    requires |before| == 3 && |current| == 2 && before[1] == b && current[0] == c && m.left == 1 && m.right == 0
    requires b.startMs == 114 * 30000 && b.endMs == 118 * 30000 && c.startMs == 116 * 30000 && c.endMs == 118 * 30000
    ensures Same(b, c) && Decide(before, current, HOUR_PLAN[7], HOUR_PLAN[8], m) == Decision(b, c)
  {
    hide Conflicts;
    assert EdgeDistance(b, HOUR_PLAN[7]) == MINUTE_MS && EdgeDistance(c, HOUR_PLAN[8]) == 0;
  }

  /** A pair of the same speech is decided. */
  lemma {:induction false} DecisionOf(previous: seq<Segment>, current: seq<Segment>, pw: WindowSpec, cw: WindowSpec,
                                      ms: seq<Match>, p: nat) returns (k: nat)
    requires forall p :: 0 <= p < |ms| ==> ms[p].left < |previous| && ms[p].right < |current|
    requires p < |ms| && Same(previous[ms[p].left], current[ms[p].right])
    ensures k < |Decisions(previous, current, pw, cw, ms)|
    ensures Decisions(previous, current, pw, cw, ms)[k] == Decide(previous, current, pw, cw, ms[p])
  {
    hide Same, Decide;
    var n := |ms| - 1;
    if p < n {
      k := DecisionOf(previous, current, pw, cw, ms[..n], p);
    } else {
      k := |Decisions(previous, current, pw, cw, ms[..n])|;
    }
  }

  // ----- the recording -----

  lemma {:induction false} NeverSaid(s: seq<Segment>, x: Segment)
    requires forall i :: 0 <= i < |s| ==> s[i].alternate.None? && s[i].segmentId != x.segmentId
    ensures AllSpeech(s, x) == 0
  {
    if s != [] {
      NeverSaid(s[1..], x);
    }
  }

  lemma SpokenOnce(w: Words, a: seq<Segment>, b: seq<Segment>, c: seq<Segment>, g: string)
    requires AllBy(a, Sixth(w), g) && AllBy(b, Seventh(w), g) && AllBy(c, Eighth(w), g)
    ensures AllSpeech([] + a + b + c, a[1]) == 1
  {
    hide AllSpeech;
    var x := a[1];
    assert [] + a == a && a == [a[0]] + [x];
    SpeechConcat(a + b, c, x);
    SpeechConcat(a, b, x);
    SpeechConcat([a[0]], [x], x);
    SpeechOfOne(x, x);
    NeverSaid([a[0]], x);
    NeverSaid(b, x);
    NeverSaid(c, x);
  }

  /** However the run over these results goes, the first version is said once, is in no segment
      of the transcript nor its alternates, and was not dropped as a duplicate. */
  lemma FirstVersionIsLost(w: Words, parts: seq<Part>, memories: seq<Memory>, tm: TextModel)
    requires FreshRun(Results(w), parts, memories, tm, HOUR_PLAN) && |parts| == 9 && Versions(tm, w)
    ensures |parts[6].segments| == 2
    ensures var x := parts[6].segments[1];
            && x.text == w.first && AllSpeech(Spoken(parts), x) == 1
            && AllSpeech(Transcript(parts, tm), x) == 0 && DroppedSpeech(parts, tm, x) == 0
    ensures !NoSecondConflict(parts, tm)
  {
    hide FreshRun, Versions, Merge, MergeDecisions, AllSpeech, AllDropped, AllLost, LostAlternate, Disagree;
    var g := OneLabel(w, parts, memories, tm);
    var a, b, c := parts[6].segments, parts[7].segments, parts[8].segments;
    forall n | 0 <= n < 9
      ensures parts[n].window == HOUR_PLAN[n] && (n < 6 ==> parts[n].segments == [])
    {
      Relabelled(w, parts, memories, tm, n);
      if n < 6 {
        Silent(w, parts, memories, tm, n);
      }
    }
    SilenceIsEmpty(parts, 6, tm);
    LastThree(parts, tm);
    MergeOfNothing(a, Some(HOUR_PLAN[5]), HOUR_PLAN[6], tm);
    var greeting := FirstMerge(w, tm, a, b, g);
    var k := LastMerge(w, tm, a, b, c, g, greeting);
    var ds := LastDecisions(parts, tm);
    LostBy(ds, tm, k);
    SpokenOnce(w, a, b, c, g);
    RecordingConserved(parts, tm, a[1]);
    assert SecondConflict(ds[k], tm);
  }

  /** The last three steps of the transcript. */
  lemma LastThree(parts: seq<Part>, tm: TextModel)
    requires |parts| == 9
    ensures Spoken(parts) == Spoken(parts[..6]) + parts[6].segments + parts[7].segments + parts[8].segments
    ensures Transcript(parts[..7], tm) == Merge(Transcript(parts[..6], tm), parts[6].segments, Some(parts[5].window),
                                                parts[6].window, tm)
    ensures Transcript(parts[..8], tm) == Merge(Transcript(parts[..7], tm), parts[7].segments, Some(parts[6].window),
                                                parts[7].window, tm)
    ensures LastDecisions(parts, tm) == MergeDecisions(Transcript(parts[..8], tm), parts[8].segments,
                                                       Some(parts[7].window), parts[8].window, tm)
    ensures forall x :: LostSpeech(parts, tm, x) >= AllLost(LastDecisions(parts, tm), tm, x)
  {
    hide Merge, MergeDecisions, AllLost;
    assert parts[..7][..6] == parts[..6] && parts[..8][..7] == parts[..7];
    assert Spoken(parts[..7]) == Spoken(parts[..6]) + parts[6].segments;
    assert Spoken(parts[..8]) == Spoken(parts[..7]) + parts[7].segments;
    assert Spoken(parts) == Spoken(parts[..8]) + parts[8].segments;
  }

  // ----- the run -----

  lemma {:induction false} FewLabels(s: seq<Segment>)
    ensures |PriorLabels(s)| <= |s|
  {
    if s != [] {
      var n := |s| - 1;
      FewLabels(s[..n]);
      var more := if Labelled(s[n]) then {s[n].globalSpeaker.value} else {};
      assert PriorLabels(s) == PriorLabels(s[..n]) + more;
    }
  }

  /** One speaker and a few labels are few enough candidates. */
  lemma FewCandidates(previous: seq<Segment>, current: seq<Segment>, pw: Option<WindowSpec>, cw: WindowSpec,
                      tm: TextModel, t: Table)
    requires |previous| <= 3 && forall i :: 0 <= i < |current| ==> current[i].localSpeaker == "S01"
    ensures !TooMany(MatrixOf(previous, current, pw, cw, tm), t, current)
  {
    hide Votes, Pairs, Mean, Existing;
    var matrix := MatrixOf(previous, current, pw, cw, tm);
    var locals, pool := NewLocals(t, current), Pool(matrix, t, current);
    FewLabels(previous);
    SubsetSize(locals, {"S01"});
    SubsetSize(pool, PriorLabels(previous));
    SmallCount(|locals|, |pool|);
  }

  lemma SmallCount(a: nat, b: nat)
    requires a <= 1 && b <= 3
    ensures AssignmentCount(a, b) <= 3
  {
    assert b > 0 ==> Assignment.Perm(b, 1) == b * Assignment.Perm(b - 1, 0);
  }

  lemma SpeakerIsLocal()
    ensures IsLocalSpeaker("S01")
  {
    assert AllDigits("S01"[1..]);
  }

  lemma NeverRefused(w: Words, parts: seq<Part>, memories: seq<Memory>, tm: TextModel)
    requires FreshRun(Results(w), parts, memories, tm, HOUR_PLAN) && |parts| < 9
    ensures |memories| == |parts| + 1
    ensures !Refused(SegmentsBefore(parts, |parts|), Results(w)[|parts|].segments, WindowBefore(parts, |parts|),
                     Results(w)[|parts|].window, tm, memories[|parts|].table)
  {
    hide FreshRun, TooMany, IsLabel, Said, Results, InOrder, InWindow, MatrixOf, IsLocalSpeaker;
    var n := |parts|;
    RunFacts(Results(w), parts, memories, tm, HOUR_PLAN);
    SpeakerIsLocal();
    SaidPlain(w, n);
    if n > 0 {
      SaidPlain(w, n - 1);
      PartFacts(Results(w), parts, memories, tm, HOUR_PLAN, n - 1);
    }
    FewCandidates(SegmentsBefore(parts, n), Results(w)[n].segments, WindowBefore(parts, n), Results(w)[n].window, tm,
                  memories[n].table);
  }

  /** The utterance with this identifier is the segment or one of its alternates. */
  predicate Mentions(s: Segment, id: string) {
    s.segmentId == id || (s.alternate.Some? && Mentions(s.alternate.value, id))
  }

  lemma {:induction false} MentionedSpeech(s: Segment, id: string) returns (y: Segment)
    requires Mentions(s, id)
    ensures y.segmentId == id && Speech(s, y) > 0
  {
    if s.segmentId == id {
      y := Core(s);
    } else {
      y := MentionedSpeech(s.alternate.value, id);
    }
  }

  lemma {:induction false} SpeechOfMember(ss: seq<Segment>, k: nat, y: Segment)
    requires k < |ss| && Speech(ss[k], y) > 0
    ensures AllSpeech(ss, y) > 0
  {
    if k > 0 {
      SpeechOfMember(ss[1..], k - 1, y);
    }
  }

  lemma {:induction false} SpokenBy(ss: seq<Segment>, y: Segment) returns (k: nat)
    requires AllSpeech(ss, y) > 0 && forall i :: 0 <= i < |ss| ==> ss[i].alternate.None?
    ensures k < |ss| && Core(ss[k]) == y
  {
    if Core(ss[0]) == y {
      k := 0;
    } else {
      k := SpokenBy(ss[1..], y);
      k := k + 1;
    }
  }

  /** What is not in the transcript is mentioned nowhere in it. */
  lemma NowhereMentioned(w: Words, parts: seq<Part>, memories: seq<Memory>, tm: TextModel)
    requires FreshRun(Results(w), parts, memories, tm, HOUR_PLAN) && |parts| == 9 && Versions(tm, w)
    ensures forall k :: 0 <= k < |Transcript(parts, tm)| ==> !Mentions(Transcript(parts, tm)[k], "6b")
  {
    hide FreshRun, Versions, Transcript, AllSpeech, Mentions, Speech;
    FirstVersionIsLost(w, parts, memories, tm);
    forall k | 0 <= k < |Transcript(parts, tm)|
      ensures !Mentions(Transcript(parts, tm)[k], "6b")
    {
      if Mentions(Transcript(parts, tm)[k], "6b") {
        var y := MentionedSpeech(Transcript(parts, tm)[k], "6b");
        SpeechOfMember(Transcript(parts, tm), k, y);
        RecordingConserved(parts, tm, y);
        OnlyFirstVersion(w, parts, memories, tm, y);
        assert false;
      }
    }
  }

  lemma OnlyFirstVersion(w: Words, parts: seq<Part>, memories: seq<Memory>, tm: TextModel, y: Segment)
    requires FreshRun(Results(w), parts, memories, tm, HOUR_PLAN) && |parts| == 9 && Versions(tm, w)
    requires y.segmentId == "6b" && AllSpeech(Spoken(parts), y) > 0
    ensures |parts[6].segments| == 2 && y == parts[6].segments[1]
  {
    hide FreshRun, Versions, AllSpeech, Transcript, Spoken;
    var g := OneLabel(w, parts, memories, tm);
    forall n | 0 <= n < 6
      ensures parts[n].segments == []
    {
      Silent(w, parts, memories, tm, n);
    }
    SilenceIsEmpty(parts, 6, tm);
    LastThree(parts, tm);
    FirstOfThree(w, parts[6].segments, parts[7].segments, parts[8].segments, g, y);
  }

  lemma FirstOfThree(w: Words, a: seq<Segment>, b: seq<Segment>, c: seq<Segment>, g: string, y: Segment)
    requires AllBy(a, Sixth(w), g) && AllBy(b, Seventh(w), g) && AllBy(c, Eighth(w), g)
    requires y.segmentId == "6b" && AllSpeech([] + a + b + c, y) > 0
    ensures y == a[1]
  {
    hide AllSpeech, AllBy, Sixth, Seventh, Eighth, Core;
    Identifiers(w, a, b, c, g);
    assert [] + a == a;
    SpeechConcat(a + b, c, y);
    SpeechConcat(a, b, y);
    NeverSaid(b, y);
    NeverSaid(c, y);
    var k := SpokenBy(a, y);
  }

  lemma Identifiers(w: Words, a: seq<Segment>, b: seq<Segment>, c: seq<Segment>, g: string)
    requires AllBy(a, Sixth(w), g) && AllBy(b, Seventh(w), g) && AllBy(c, Eighth(w), g)
    ensures |a| == 2 && Core(a[0]).segmentId == "6a" && Core(a[1]) == a[1]
    ensures forall i :: 0 <= i < |a| ==> a[i].alternate.None?
    ensures forall i :: 0 <= i < |b| ==> b[i].alternate.None? && b[i].segmentId != "6b"
    ensures forall i :: 0 <= i < |c| ==> c[i].alternate.None? && c[i].segmentId != "6b"
  {
  }

  /** The run of a new remapper over the results succeeds, and its transcript lacks the first
      version: only duplicates should be missing, and it is none. */
  method LosesAnUtterance(w: Words, tm: TextModel)
    returns (r: Result<seq<Segment>, RemapError>, ghost parts: seq<Part>, ghost memories: seq<Memory>)
    requires Versions(tm, w)
    ensures FreshRun(Results(w), parts, memories, tm, HOUR_PLAN) && memories[0] == Memory(map[], 1)
    ensures r.Success? && forall k :: 0 <= k < |r.value| ==> !Mentions(r.value[k], "6b")
    ensures |parts| == 9 && r == Success(Transcript(parts, tm)) && |parts[6].segments| == 2
    ensures var x := parts[6].segments[1];
            && x.text == w.first && AllSpeech(Spoken(parts), x) == 1
            && AllSpeech(r.value, x) == 0 && DroppedSpeech(parts, tm, x) == 0
    ensures !OnlyDuplicatesMissing(parts, tm)
  {
    hide Transcript, AllSpeech, DroppedSpeech, Spoken, Versions, Refused, History, StoredParts, Chain;
    HourIsChain();
    ResultsParsed(w);
    var remapper := new SpeakerRemapper();
    r, parts, memories := MergeRecording(remapper, Results(w), tm);
    assert FreshRun(Results(w), parts, memories, tm, HOUR_PLAN);
    if r.Failure? {
      NeverRefused(w, parts, memories, tm);
      assert false;
    }
    FirstVersionIsLost(w, parts, memories, tm);
    NowhereMentioned(w, parts, memories, tm);
    MissesIt(parts, tm, parts[6].segments[1]);
  }

  lemma MissesIt(parts: seq<Part>, tm: TextModel, x: Segment)
    requires AllSpeech(Spoken(parts), x) == 1 && AllSpeech(Transcript(parts, tm), x) == 0
             && DroppedSpeech(parts, tm, x) == 0
    ensures !OnlyDuplicatesMissing(parts, tm)
  {
    if OnlyDuplicatesMissing(parts, tm) {
      MissingAt(parts, tm, x);
      assert false;
    }
  }

  // ----- the merge by itself -----

  function Spoke(id: string, from: int, to: int, text: string, status: ParseStatus): Segment {
    Segment(id, id, from * 30000, to * 30000, "S01", Some("GS01"), text, None, status, Primary, None, "")
  }

  lemma NobodyElse(all: seq<Segment>, s: Segment)
    requires |all| == 2
    ensures Conflicts(all, s, 0, 1, 2) == 0
  {
    assert Conflicts(all, s, 0, 1, 1) == 0;
  }

  lemma OneDecision(d: Decision, tm: TextModel, x: Segment)
    ensures AllDropped([d], tm, x) == Dropped(d, tm, x)
  {
    assert [d][..0] == [];
  }

  lemma ThreeSpoken(a: Segment, b: Segment, c: Segment)
    requires Core(a) == a && Core(b) != a && Core(c) != a && a.alternate.None? && b.alternate.None? && c.alternate.None?
    ensures AllSpeech([a] + [b] + [c], a) == 1
  {
    SpeechConcat([a], [b], a);
    SpeechConcat([a] + [b], [c], a);
    SpeechOfOne(a, a);
    SpeechOfOne(b, a);
    SpeechOfOne(c, a);
  }

  /** Two merges of labelled utterances, in which the middle one disagrees with the first and
      agrees with the third, which is kept: it is dropped as a duplicate, and the first version
      goes with it. Labels of this kind do not come out of a run over parsed results. */
  lemma DuplicateLoses(first: string, second: string, tm: TextModel) returns (a: Segment, b: Segment, c: Segment)
    requires tm.normalize(first) != tm.normalize(second)
    ensures InWindow(a, HOUR_PLAN[6]) && InWindow(b, HOUR_PLAN[7]) && InWindow(c, HOUR_PLAN[8])
    ensures var once := Merge([a], [b], Some(HOUR_PLAN[6]), HOUR_PLAN[7], tm);
            && AllSpeech([a] + [b] + [c], a) == 1
            && AllSpeech(Merge(once, [c], Some(HOUR_PLAN[7]), HOUR_PLAN[8], tm), a) == 0
            && AllDropped(MergeDecisions([a], [b], Some(HOUR_PLAN[6]), HOUR_PLAN[7], tm), tm, a) == 0
            && AllDropped(MergeDecisions(once, [c], Some(HOUR_PLAN[7]), HOUR_PLAN[8], tm), tm, a) == 0
  {
    hide Merge, MergeDecisions, MatchScore, AllDropped, AllSpeech;
    a := Spoke("6", 112, 116, first, Repaired);
    b := Spoke("7", 112, 120, second, Repaired);
    c := Spoke("8", 116, 120, second, Valid);
    MergeOfTwo(a, b, HOUR_PLAN[6], HOUR_PLAN[7], tm);
    var d1 := Decision(b, a);
    NobodyElse([a] + [b], a);
    NobodyElse([a] + [b], b);
    assert Decide([a], [b], HOUR_PLAN[6], HOUR_PLAN[7], Match(0, 0, MatchScore(a, b, 1.0, tm), 1.0)) == d1;
    var kept := Resolve(d1, tm);
    MergeOfTwo(kept, c, HOUR_PLAN[7], HOUR_PLAN[8], tm);
    var d2 := Decision(c, kept);
    assert Decide([kept], [c], HOUR_PLAN[7], HOUR_PLAN[8], Match(0, 0, MatchScore(kept, c, 1.0, tm), 1.0)) == d2;
    OneDecision(d1, tm, a);
    OneDecision(d2, tm, a);
    ThreeSpoken(a, b, c);
    SpeechOfOne(Resolve(d2, tm), a);
  }
}

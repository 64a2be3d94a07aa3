/** Greedy utterance matching inside the overlap of two windows
    (segment_match_score and overlap_pairs of linux/backend/moss_worker/speaker_remap.py). */
module Matching {
  import opened Wrappers
  import opened Windowing
  import opened Sorting
  import opened Segments

  /** A segment with its position in the input, which stands for Python's object identity. */
  datatype Item = Item(index: nat, segment: Segment)

  /** A candidate pair: positions `i`, `j` in the sorted sides. */
  datatype Candidate = Candidate(score: real, i: nat, j: nat, order: real)

  /** A matched pair: positions in the original inputs. */
  datatype Match = Match(left: nat, right: nat, score: real, order: real)

  // ----- the score -----

  function Ratio(a: int, b: int): real { if b == 0 then 0.0 else a as real / b as real }

  function Clamp(r: real): real { if r < 0.0 then 0.0 else if r > 1.0 then 1.0 else r }

  function MatchScore(a: Segment, b: Segment, order: real, tm: TextModel): real {
    var intersection := MaxInt(0, MinInt(a.endMs, b.endMs) - MaxInt(a.startMs, b.startMs));
    var union := MaxInt(a.endMs, b.endMs) - MinInt(a.startMs, b.startMs);
    var da := a.endMs - a.startMs;
    var db := b.endMs - b.startMs;
    var text := tm.similarity(tm.normalize(a.text), tm.normalize(b.text)) as real;
    0.45 * Ratio(intersection, union) + 0.35 * text + 0.10 * Ratio(MinInt(da, db), MaxInt(da, db)) + 0.10 * Clamp(order)
  }

  lemma RatioUnit(a: int, b: int)
    requires 0 <= a <= b
    ensures 0.0 <= Ratio(a, b) <= 1.0
  {
    if b > 0 {
      assert Ratio(a, b) * (b as real) == a as real;
    }
  }

  /** Scores are confidences in [0, 1]. */
  lemma ScoreUnit(a: Segment, b: Segment, order: real, tm: TextModel)
    requires a.startMs <= a.endMs && b.startMs <= b.endMs
    ensures 0.0 <= MatchScore(a, b, order, tm) <= 1.0
  {
    var intersection := MaxInt(0, MinInt(a.endMs, b.endMs) - MaxInt(a.startMs, b.startMs));
    var union := MaxInt(a.endMs, b.endMs) - MinInt(a.startMs, b.startMs);
    RatioUnit(intersection, union);
    RatioUnit(MinInt(a.endMs - a.startMs, b.endMs - b.startMs), MaxInt(a.endMs - a.startMs, b.endMs - b.startMs));
  }

  /** The utterances agree: they share at least two thirds of the time that either covers,
      and their texts are at least four sevenths alike. */
  predicate Alike(a: Segment, b: Segment, tm: TextModel) {
    && Overlap(a, b)
    && 3 * (MinInt(a.endMs, b.endMs) - MaxInt(a.startMs, b.startMs))
      >= 2 * (MaxInt(a.endMs, b.endMs) - MinInt(a.startMs, b.startMs))
    && 7.0 * (tm.similarity(tm.normalize(a.text), tm.normalize(b.text)) as real) >= 4.0
  }

  /** A score that reaches the threshold for carrying a speaker on, 0.85, needs both: neither
      time nor text nor order alone can reach it. */
  lemma HighScoreNeedsBoth(a: Segment, b: Segment, order: real, tm: TextModel)
    requires Overlap(a, b) && MatchScore(a, b, order, tm) >= 0.85
    ensures Alike(a, b, tm)
  {
    var intersection := MaxInt(0, MinInt(a.endMs, b.endMs) - MaxInt(a.startMs, b.startMs));
    var union := MaxInt(a.endMs, b.endMs) - MinInt(a.startMs, b.startMs);
    var da, db := a.endMs - a.startMs, b.endMs - b.startMs;
    RatioUnit(intersection, union);
    RatioUnit(MinInt(da, db), MaxInt(da, db));
    assert 3.0 * Ratio(intersection, union) >= 2.0;
    RatioAtLeastTwoThirds(intersection, union);
  }

  lemma RatioAtLeastTwoThirds(a: int, b: int)
    requires b > 0 && 3.0 * Ratio(a, b) >= 2.0
    ensures 3 * a >= 2 * b
  {
    assert Ratio(a, b) * (b as real) == a as real;
    assert (3.0 * Ratio(a, b)) * (b as real) >= 2.0 * (b as real);
  }

  /** Only the same words over the same stretch of time, in the same place of the order, score one. */
  lemma PerfectScoreIff(a: Segment, b: Segment, order: real, tm: TextModel)
    requires Overlap(a, b)
    ensures MatchScore(a, b, order, tm) == 1.0 <==>
              a.startMs == b.startMs && a.endMs == b.endMs
              && tm.similarity(tm.normalize(a.text), tm.normalize(b.text)) == 1.0 && order >= 1.0
  {
    var intersection := MaxInt(0, MinInt(a.endMs, b.endMs) - MaxInt(a.startMs, b.startMs));
    var union := MaxInt(a.endMs, b.endMs) - MinInt(a.startMs, b.startMs);
    var da, db := a.endMs - a.startMs, b.endMs - b.startMs;
    RatioUnit(intersection, union);
    RatioUnit(MinInt(da, db), MaxInt(da, db));
    RatioOneIff(intersection, union);
    RatioOneIff(MinInt(da, db), MaxInt(da, db));
  }

  lemma RatioOneIff(a: int, b: int)
    requires b > 0
    ensures Ratio(a, b) == 1.0 <==> a == b
  {
    assert Ratio(a, b) * (b as real) == a as real;
  }

  /** Milliseconds that both utterances cover, and that at least one of them spans. */
  function Shared(a: Segment, b: Segment): int { MinInt(a.endMs, b.endMs) - MaxInt(a.startMs, b.startMs) }

  function Spanned(a: Segment, b: Segment): int { MaxInt(a.endMs, b.endMs) - MinInt(a.startMs, b.startMs) }

  function Longer(a: Segment, b: Segment): int { MaxInt(a.endMs - a.startMs, b.endMs - b.startMs) }

  function Shorter(a: Segment, b: Segment): int { MinInt(a.endMs - a.startMs, b.endMs - b.startMs) }

  /** The weights of the score, without a division: in twentieths nine for the time, seven for
      the words, two for the lengths and two for the order. */
  lemma ScoreWeights(a: Segment, b: Segment, order: real, tm: TextModel)
    requires Overlap(a, b) && 0.0 <= order <= 1.0
    ensures Spanned(a, b) > 0 && Longer(a, b) > 0
    ensures var text := tm.similarity(tm.normalize(a.text), tm.normalize(b.text)) as real;
            var spanned, longer := Spanned(a, b) as real, Longer(a, b) as real;
            20.0 * MatchScore(a, b, order, tm) * (spanned * longer)
            == 9.0 * (Shared(a, b) as real) * longer + 7.0 * text * (spanned * longer)
               + 2.0 * (Shorter(a, b) as real) * spanned + 2.0 * order * (spanned * longer)
  {
    var text := tm.similarity(tm.normalize(a.text), tm.normalize(b.text)) as real;
    var spanned, longer := Spanned(a, b) as real, Longer(a, b) as real;
    var time, lengths := Ratio(Shared(a, b), Spanned(a, b)), Ratio(Shorter(a, b), Longer(a, b));
    assert time * spanned == Shared(a, b) as real && lengths * longer == Shorter(a, b) as real;
    assert 20.0 * MatchScore(a, b, order, tm) == 9.0 * time + 7.0 * text + 2.0 * lengths + 2.0 * order;
    Weighted(time, text, lengths, order, spanned, longer);
  }

  lemma Weighted(time: real, text: real, lengths: real, order: real, spanned: real, longer: real)
    ensures (9.0 * time + 7.0 * text + 2.0 * lengths + 2.0 * order) * (spanned * longer)
            == 9.0 * (time * spanned) * longer + 7.0 * text * (spanned * longer)
               + 2.0 * (lengths * longer) * spanned + 2.0 * order * (spanned * longer)
  {
  }

  // ----- candidates -----

  predicate Touches(s: Segment, start: int, end: int) { s.startMs < end && s.endMs > start }

  function Selected(s: seq<Segment>, start: int, end: int, n: nat): seq<Item>
    requires n <= |s|
  {
    if n == 0 then []
    else Selected(s, start, end, n - 1) + if Touches(s[n - 1], start, end) then [Item(n - 1, s[n - 1])] else []
  }

  predicate ItemLe(a: Item, b: Item) { TimeLe(a.segment, b.segment) }

  function Side(s: seq<Segment>, start: int, end: int): seq<Item> {
    Sort(Selected(s, start, end, |s|), ItemLe)
  }

  predicate Eligible(a: Segment, b: Segment, sameGlobal: bool) {
    && !(sameGlobal && Labelled(a) && Labelled(b) && a.globalSpeaker != b.globalSpeaker)
    && Overlap(a, b)
  }

  function Position(i: nat, length: nat): real { i as real / MaxInt(1, length - 1) as real }

  function OrderScore(i: nat, j: nat, left: nat, right: nat): real {
    var d := Position(i, left) - Position(j, right);
    1.0 - (if d < 0.0 then -d else d)
  }

  /** How far apart two places stand in their sides, in units that fit both lengths. */
  function Apart(i: nat, j: nat, left: nat, right: nat): int {
    var l, r := MaxInt(1, left - 1), MaxInt(1, right - 1);
    MaxInt(i * r - j * l, j * l - i * r)
  }

  /** The order score falls short of one by that distance, measured against the whole way. */
  lemma OrderScoreExact(i: nat, j: nat, left: nat, right: nat)
    ensures var l, r := MaxInt(1, left - 1), MaxInt(1, right - 1);
            (1.0 - OrderScore(i, j, left, right)) * (l as real * r as real) == Apart(i, j, left, right) as real
  {
    var l, r := MaxInt(1, left - 1), MaxInt(1, right - 1);
    var p, q := Position(i, left), Position(j, right);
    PositionScaled(i, left);
    PositionScaled(j, right);
    hide Position;
    CrossDifference(p, q, i, j, l, r);
    DistanceScaled(p - q, l as real * r as real, i * r - j * l);
  }

  lemma PositionScaled(i: nat, length: nat)
    ensures Position(i, length) * (MaxInt(1, length - 1) as real) == i as real
  {
  }

  lemma DistanceScaled(d: real, whole: real, gap: int)
    requires whole > 0.0 && d * whole == gap as real
    ensures (if d < 0.0 then -d else d) * whole == MaxInt(gap, -gap) as real
  {
    SignOfProduct(d, whole);
    assert (-d) * whole == -(d * whole);
  }

  lemma CrossDifference(p: real, q: real, i: int, j: int, l: int, r: int)
    requires p * (l as real) == i as real && q * (r as real) == j as real && l > 0 && r > 0
    ensures l as real * r as real > 0.0
    ensures (p - q) * (l as real * r as real) == (i * r - j * l) as real
    ensures (q - p) * (l as real * r as real) == (j * l - i * r) as real
  {
    assert (p - q) * (l as real * r as real) == (p * l as real) * r as real - (q * r as real) * l as real;
    assert (i * r - j * l) as real == i as real * r as real - j as real * l as real;
    assert (q - p) * (l as real * r as real) == -((p - q) * (l as real * r as real));
  }

  lemma SignOfProduct(x: real, y: real)
    requires y > 0.0
    ensures x * y > 0.0 <==> x > 0.0
    ensures x * y == 0.0 <==> x == 0.0
  {
  }

  lemma Complement(x: real, whole: real, gap: int)
    requires whole > 0.0 && (1.0 - x) * whole == gap as real
    ensures x > 1.0 <==> gap < 0
    ensures x == 1.0 <==> gap == 0
    ensures x > 0.0 <==> whole > gap as real
    ensures x == 0.0 <==> whole == gap as real
  {
    SignOfProduct(1.0 - x, whole);
    SignOfProduct(x, whole);
    assert x * whole == whole - (1.0 - x) * whole;
  }

  /** Two places of the same sides score in the opposite order of how far apart they stand. */
  lemma NearerScoresHigher(i: nat, j: nat, k: nat, m: nat, left: nat, right: nat)
    ensures OrderScore(i, j, left, right) > OrderScore(k, m, left, right)
            <==> Apart(i, j, left, right) < Apart(k, m, left, right)
  {
    hide OrderScore, Apart;
    var l, r := MaxInt(1, left - 1), MaxInt(1, right - 1);
    OrderScoreExact(i, j, left, right);
    OrderScoreExact(k, m, left, right);
    CrossDifference(0.0, 0.0, 0, 0, l, r);
    var whole := l as real * r as real;
    var x, y := OrderScore(i, j, left, right), OrderScore(k, m, left, right);
    assert (x - y) * whole == (1.0 - y) * whole - (1.0 - x) * whole;
    SignOfProduct(x - y, whole);
  }

  /** The order score is a confidence: one exactly for the same relative place, and nothing
      exactly from the first place of one side to the last of the other. */
  lemma OrderScoreRange(i: nat, j: nat, left: nat, right: nat)
    requires i < left && j < right
    ensures 0.0 <= OrderScore(i, j, left, right) <= 1.0
    ensures OrderScore(i, j, left, right) == 1.0 <==> i * MaxInt(1, right - 1) == j * MaxInt(1, left - 1)
    ensures OrderScore(i, j, left, right) == 0.0 <==>
              (i == 0 && right > 1 && j == right - 1) || (j == 0 && left > 1 && i == left - 1)
  {
    hide OrderScore;
    var l, r := MaxInt(1, left - 1), MaxInt(1, right - 1);
    OrderScoreExact(i, j, left, right);
    ApartRange(i, j, l, r);
    CrossDifference(0.0, 0.0, 0, 0, l, r);
    assert l as real * r as real == (l * r) as real;
    Complement(OrderScore(i, j, left, right), l as real * r as real, Apart(i, j, left, right));
  }

  lemma ApartRange(i: nat, j: nat, l: nat, r: nat)
    requires i <= l && j <= r && l > 0 && r > 0
    ensures 0 <= MaxInt(i * r - j * l, j * l - i * r) <= l * r
    ensures MaxInt(i * r - j * l, j * l - i * r) == l * r <==> (i == 0 && j == r) || (j == 0 && i == l)
  {
    assert l * r - i * r == (l - i) * r && l * r - j * l == (r - j) * l;
    assert (l - i) * r >= 0 && (r - j) * l >= 0 && i * r >= 0 && j * l >= 0;
    ZeroProduct(l - i, r);
    ZeroProduct(r - j, l);
    ZeroProduct(i, r);
    ZeroProduct(j, l);
  }

  lemma ZeroProduct(a: nat, b: nat)
    requires b > 0
    ensures a * b == 0 <==> a == 0
  {
  }

  function CandidateAt(left: seq<Item>, right: seq<Item>, i: nat, j: nat, tm: TextModel): Candidate
    requires i < |left| && j < |right|
  {
    var order := OrderScore(i, j, |left|, |right|);
    Candidate(MatchScore(left[i].segment, right[j].segment, order, tm), i, j, order)
  }

  /** The candidates of the first `i` rows and of the first `j` columns of row `i`. */
  function Candidates(left: seq<Item>, right: seq<Item>, i: nat, j: nat, sameGlobal: bool,
                      tm: TextModel): seq<Candidate>
    requires i <= |left| && j <= |right| && (i == |left| ==> j == 0)
    decreases i, j
  {
    if j > 0 then
      Candidates(left, right, i, j - 1, sameGlobal, tm)
      + if Eligible(left[i].segment, right[j - 1].segment, sameGlobal) then [CandidateAt(left, right, i, j - 1, tm)]
        else []
    else if i > 0 then
      Candidates(left, right, i - 1, |right|, sameGlobal, tm)
    else []
  }

  /** Best score first, ties by position. */
  predicate CandidateLe(a: Candidate, b: Candidate) {
    a.score > b.score || (a.score == b.score && (a.i < b.i || (a.i == b.i && a.j <= b.j)))
  }

  // ----- the greedy choice -----

  function Greedy(cs: seq<Candidate>, usedLeft: set<nat>, usedRight: set<nat>): seq<Candidate> {
    if cs == [] then []
    else if cs[0].i !in usedLeft && cs[0].j !in usedRight then
      [cs[0]] + Greedy(cs[1..], usedLeft + {cs[0].i}, usedRight + {cs[0].j})
    else Greedy(cs[1..], usedLeft, usedRight)
  }

  predicate OneToOne(cs: seq<Candidate>) {
    forall p, q :: 0 <= p < q < |cs| ==> cs[p].i != cs[q].i && cs[p].j != cs[q].j
  }

  lemma {:induction false} GreedyMembers(cs: seq<Candidate>, usedLeft: set<nat>, usedRight: set<nat>, g: Candidate)
    requires g in Greedy(cs, usedLeft, usedRight)
    ensures g in cs && g.i !in usedLeft && g.j !in usedRight
  {
    if cs[0].i !in usedLeft && cs[0].j !in usedRight {
      if g != cs[0] {
        assert g in Greedy(cs[1..], usedLeft + {cs[0].i}, usedRight + {cs[0].j});
        GreedyMembers(cs[1..], usedLeft + {cs[0].i}, usedRight + {cs[0].j}, g);
      }
    } else {
      GreedyMembers(cs[1..], usedLeft, usedRight, g);
    }
  }

  /** The chosen pairs are one-to-one. */
  lemma {:induction false} GreedyOneToOne(cs: seq<Candidate>, usedLeft: set<nat>, usedRight: set<nat>)
    ensures OneToOne(Greedy(cs, usedLeft, usedRight))
  {
    if cs != [] {
      if cs[0].i !in usedLeft && cs[0].j !in usedRight {
        var rest := Greedy(cs[1..], usedLeft + {cs[0].i}, usedRight + {cs[0].j});
        GreedyOneToOne(cs[1..], usedLeft + {cs[0].i}, usedRight + {cs[0].j});
        forall q | 0 <= q < |rest|
          ensures rest[q].i != cs[0].i && rest[q].j != cs[0].j
        {
          GreedyMembers(cs[1..], usedLeft + {cs[0].i}, usedRight + {cs[0].j}, rest[q]);
        }
      } else {
        GreedyOneToOne(cs[1..], usedLeft, usedRight);
      }
    }
  }

  /** Whatever the greedy choice rejects shares an end with something at least as good. */
  lemma {:induction false} GreedyBlocks(cs: seq<Candidate>, usedLeft: set<nat>, usedRight: set<nat>, c: Candidate)
    requires Sorted(cs, CandidateLe) && c in cs && c.i !in usedLeft && c.j !in usedRight
    ensures exists g :: g in Greedy(cs, usedLeft, usedRight) && g.score >= c.score && (g.i == c.i || g.j == c.j)
  {
    var head := cs[0];
    if head.i !in usedLeft && head.j !in usedRight {
      assert head in Greedy(cs, usedLeft, usedRight);
      if head.i != c.i && head.j != c.j {
        GreedyBlocks(cs[1..], usedLeft + {head.i}, usedRight + {head.j}, c);
      }
    } else {
      GreedyBlocks(cs[1..], usedLeft, usedRight, c);
    }
  }

  function Total(cs: seq<Candidate>): real {
    if cs == [] then 0.0 else cs[0].score + Total(cs[1..])
  }

  function Without(cs: seq<Candidate>, k: nat): seq<Candidate>
    requires k < |cs|
  {
    cs[..k] + cs[k + 1..]
  }

  lemma {:induction false} TotalWithout(cs: seq<Candidate>, k: nat)
    requires k < |cs|
    ensures Total(cs) == cs[k].score + Total(Without(cs, k))
  {
    if k > 0 {
      TotalWithout(cs[1..], k - 1);
      assert Without(cs, k) == [cs[0]] + Without(cs[1..], k - 1);
    } else {
      assert Without(cs, 0) == cs[1..];
    }
  }

  ghost predicate FreeMatching(m: seq<Candidate>, cs: seq<Candidate>, usedLeft: set<nat>, usedRight: set<nat>) {
    && OneToOne(m)
    && forall p :: 0 <= p < |m| ==> m[p] in cs && m[p].i !in usedLeft && m[p].j !in usedRight
  }

  /** A matching without one of its pairs no longer meets that pair's ends. */
  lemma DropPair(m: seq<Candidate>, cs: seq<Candidate>, usedLeft: set<nat>, usedRight: set<nat>, k: nat)
    requires FreeMatching(m, cs, usedLeft, usedRight) && k < |m|
    ensures FreeMatching(Without(m, k), cs, usedLeft + {m[k].i}, usedRight + {m[k].j})
    ensures forall p :: 0 <= p < |Without(m, k)| ==> Without(m, k)[p] in m
    ensures Total(m) == m[k].score + Total(Without(m, k))
  {
    var rest := Without(m, k);
    TotalWithout(m, k);
    forall p | 0 <= p < |rest|
      ensures rest[p] == m[if p < k then p else p + 1]
    {}
  }

  lemma FreeOfHead(m: seq<Candidate>, cs: seq<Candidate>, usedLeft: set<nat>, usedRight: set<nat>)
    requires cs != [] && FreeMatching(m, cs, usedLeft, usedRight)
    requires forall p :: 0 <= p < |m| ==> m[p].i != cs[0].i && m[p].j != cs[0].j
    ensures FreeMatching(m, cs[1..], usedLeft + {cs[0].i}, usedRight + {cs[0].j})
  {
    forall p | 0 <= p < |m|
      ensures m[p] in cs[1..]
    {
      assert m[p] != cs[0];
    }
  }

  lemma Loosen(m: seq<Candidate>, cs: seq<Candidate>, l: set<nat>, r: set<nat>, l': set<nat>, r': set<nat>)
    requires FreeMatching(m, cs, l, r) && l' <= l && r' <= r
    ensures FreeMatching(m, cs, l', r')
  {
  }

  /** Removing the pairs of a matching that meet one end costs at most one score. */
  lemma DropEnd(m: seq<Candidate>, cs: seq<Candidate>, usedLeft: set<nat>, usedRight: set<nat>, left: bool)
    returns (rest: seq<Candidate>)
    requires cs != [] && Sorted(cs, CandidateLe) && cs[0].score >= 0.0 && FreeMatching(m, cs, usedLeft, usedRight)
    ensures FreeMatching(rest, cs, usedLeft, usedRight)
    ensures forall p :: 0 <= p < |rest| ==> rest[p] in m
    ensures forall p :: 0 <= p < |rest| ==> if left then rest[p].i != cs[0].i else rest[p].j != cs[0].j
    ensures Total(m) <= Total(rest) + cs[0].score
  {
    rest := m;
    if k :| 0 <= k < |m| && (if left then m[k].i == cs[0].i else m[k].j == cs[0].j) {
      rest := Without(m, k);
      DropPair(m, cs, usedLeft, usedRight, k);
      Loosen(rest, cs, usedLeft + {m[k].i}, usedRight + {m[k].j}, usedLeft, usedRight);
      assert m[k] in cs;
      assert m[k].score <= cs[0].score;
    }
  }

  /** The greedy total is at least half the total of any one-to-one choice of candidates. */
  lemma {:induction false} GreedyHalfOptimal(cs: seq<Candidate>, usedLeft: set<nat>, usedRight: set<nat>,
                                             m: seq<Candidate>)
    requires Sorted(cs, CandidateLe) && (forall c :: c in cs ==> c.score >= 0.0)
    requires FreeMatching(m, cs, usedLeft, usedRight)
    ensures Total(m) <= 2.0 * Total(Greedy(cs, usedLeft, usedRight))
  {
    if cs == [] {
      assert m == [];
    } else if cs[0].i !in usedLeft && cs[0].j !in usedRight {
      var partly := DropEnd(m, cs, usedLeft, usedRight, true);
      var rest := DropEnd(partly, cs, usedLeft, usedRight, false);
      FreeOfHead(rest, cs, usedLeft, usedRight);
      GreedyHalfOptimal(cs[1..], usedLeft + {cs[0].i}, usedRight + {cs[0].j}, rest);
    } else {
      GreedyHalfOptimal(cs[1..], usedLeft, usedRight, m);
    }
  }

  // ----- overlap_pairs -----

  lemma {:induction false} SelectedMembers(s: seq<Segment>, start: int, end: int, n: nat)
    requires n <= |s|
    ensures forall it :: it in Selected(s, start, end, n) <==>
                           it.index < n && it.segment == s[it.index] && Touches(it.segment, start, end)
    ensures NoDuplicates(Selected(s, start, end, n))
  {
    if n > 0 {
      SelectedMembers(s, start, end, n - 1);
    }
  }

  /** The side of a match is exactly the input's segments that touch the overlap, each
      once, in time order. */
  lemma SideMembers(s: seq<Segment>, start: int, end: int)
    ensures forall it :: it in Side(s, start, end) <==>
                           it.index < |s| && it.segment == s[it.index] && Touches(it.segment, start, end)
    ensures forall p, q :: 0 <= p < q < |Side(s, start, end)| ==>
              Side(s, start, end)[p].index != Side(s, start, end)[q].index
    ensures Sorted(Side(s, start, end), ItemLe)
  {
    var chosen := Selected(s, start, end, |s|);
    SelectedMembers(s, start, end, |s|);
    SortNoDuplicates(chosen, ItemLe);
    forall it
      ensures it in Side(s, start, end) <==> it in chosen
    {
      SortMembers(chosen, ItemLe, it);
    }
    var side := Side(s, start, end);
    forall p, q | 0 <= p < q < |side|
      ensures side[p].index != side[q].index
    {
      assert side[p] in side && side[q] in side;
      assert side[p] != side[q];
    }
    forall x: Item, y: Item, z: Item
      ensures ItemLe(x, y) || ItemLe(y, x)
      ensures ItemLe(x, y) && ItemLe(y, z) ==> ItemLe(x, z)
    {
      TimeLeOrder(x.segment, y.segment, z.segment);
    }
    SortSorted(chosen, ItemLe);
  }

  predicate CandidateOf(c: Candidate, left: seq<Item>, right: seq<Item>, sameGlobal: bool, tm: TextModel) {
    && c.i < |left| && c.j < |right|
    && Eligible(left[c.i].segment, right[c.j].segment, sameGlobal)
    && c == CandidateAt(left, right, c.i, c.j, tm)
  }

  lemma {:induction false} CandidatesSound(left: seq<Item>, right: seq<Item>, i: nat, j: nat, sameGlobal: bool,
                                           tm: TextModel)
    requires i <= |left| && j <= |right| && (i == |left| ==> j == 0)
    ensures forall c :: c in Candidates(left, right, i, j, sameGlobal, tm) <==>
                          CandidateOf(c, left, right, sameGlobal, tm) && (c.i < i || (c.i == i && c.j < j))
    decreases i, j
  {
    if j > 0 {
      CandidatesSound(left, right, i, j - 1, sameGlobal, tm);
    } else if i > 0 {
      CandidatesSound(left, right, i - 1, |right|, sameGlobal, tm);
    }
  }

  function Ranked(left: seq<Item>, right: seq<Item>, sameGlobal: bool, tm: TextModel): seq<Candidate> {
    Sort(Candidates(left, right, |left|, 0, sameGlobal, tm), CandidateLe)
  }

  lemma RankedSound(left: seq<Item>, right: seq<Item>, sameGlobal: bool, tm: TextModel)
    ensures Sorted(Ranked(left, right, sameGlobal, tm), CandidateLe)
    ensures forall c :: c in Ranked(left, right, sameGlobal, tm) <==> CandidateOf(c, left, right, sameGlobal, tm)
  {
    var cs := Candidates(left, right, |left|, 0, sameGlobal, tm);
    CandidatesSound(left, right, |left|, 0, sameGlobal, tm);
    SortSorted(cs, CandidateLe);
    forall c
      ensures c in Ranked(left, right, sameGlobal, tm) <==> c in cs
    {
      SortMembers(cs, CandidateLe, c);
    }
  }

  function Chosen(left: seq<Item>, right: seq<Item>, sameGlobal: bool, tm: TextModel): (g: seq<Candidate>)
    ensures OneToOne(g)
    ensures forall p :: 0 <= p < |g| ==> CandidateOf(g[p], left, right, sameGlobal, tm)
  {
    var cs := Ranked(left, right, sameGlobal, tm);
    RankedSound(left, right, sameGlobal, tm);
    GreedyOneToOne(cs, {}, {});
    var g := Greedy(cs, {}, {});
    assert forall p :: 0 <= p < |g| ==> g[p] in cs by {
      forall p | 0 <= p < |g|
        ensures g[p] in cs
      {
        GreedyMembers(cs, {}, {}, g[p]);
      }
    }
    g
  }

  function MatchOf(left: seq<Item>, right: seq<Item>, c: Candidate): Match
    requires c.i < |left| && c.j < |right|
  {
    Match(left[c.i].index, right[c.j].index, c.score, c.order)
  }

  function Matches(left: seq<Item>, right: seq<Item>, g: seq<Candidate>): (ms: seq<Match>)
    requires forall p :: 0 <= p < |g| ==> g[p].i < |left| && g[p].j < |right|
    ensures |ms| == |g| && forall p :: 0 <= p < |g| ==> ms[p] == MatchOf(left, right, g[p])
  {
    seq(|g|, p requires 0 <= p < |g| => MatchOf(left, right, g[p]))
  }

  /** The pairs of two adjacent windows' segments. */
  function Pairs(previous: seq<Segment>, current: seq<Segment>, previousWindow: Option<WindowSpec>,
                 currentWindow: WindowSpec, sameGlobal: bool, tm: TextModel): seq<Match>
  {
    if previousWindow.None? then []
    else
      var start := MaxInt(previousWindow.value.startMs, currentWindow.startMs);
      var end := MinInt(previousWindow.value.endMs, currentWindow.endMs);
      if start >= end then []
      else
        var left, right := Side(previous, start, end), Side(current, start, end);
        Matches(left, right, Chosen(left, right, sameGlobal, tm))
  }

  /** Pairs are one-to-one, and join utterances that really share time in the windows' overlap. */
  lemma PairsSound(previous: seq<Segment>, current: seq<Segment>, previousWindow: Option<WindowSpec>,
                   currentWindow: WindowSpec, sameGlobal: bool, tm: TextModel)
    ensures var ms := Pairs(previous, current, previousWindow, currentWindow, sameGlobal, tm);
            && (ms != [] ==> previousWindow.Some?)
            && (forall p :: 0 <= p < |ms| ==>
                              && ms[p].left < |previous| && ms[p].right < |current|
                              && Eligible(previous[ms[p].left], current[ms[p].right], sameGlobal))
            && (forall p, q :: 0 <= p < q < |ms| ==> ms[p].left != ms[q].left && ms[p].right != ms[q].right)
  {
    hide Chosen, Side, Eligible, OneToOne, Touches;
    var ms := Pairs(previous, current, previousWindow, currentWindow, sameGlobal, tm);
    if ms != [] {
      var start := MaxInt(previousWindow.value.startMs, currentWindow.startMs);
      var end := MinInt(previousWindow.value.endMs, currentWindow.endMs);
      var left, right := Side(previous, start, end), Side(current, start, end);
      SideMembers(previous, start, end);
      SideMembers(current, start, end);
      MatchesSound(left, right, Chosen(left, right, sameGlobal, tm), previous, current, sameGlobal, tm);
    }
  }

  /** One utterance on each side: they are paired if they may be. */
  lemma PairOfTwo(a: Segment, b: Segment, previousWindow: WindowSpec, currentWindow: WindowSpec, sameGlobal: bool,
                  tm: TextModel)
    requires var start, end := MaxInt(previousWindow.startMs, currentWindow.startMs),
             MinInt(previousWindow.endMs, currentWindow.endMs);
             start < end && Touches(a, start, end) && Touches(b, start, end)
    requires Eligible(a, b, sameGlobal)
    ensures Pairs([a], [b], Some(previousWindow), currentWindow, sameGlobal, tm)
            == [Match(0, 0, MatchScore(a, b, 1.0, tm), 1.0)]
  {
    hide MatchScore, Touches, Eligible, TimeLe;
    var start, end := MaxInt(previousWindow.startMs, currentWindow.startMs),
      MinInt(previousWindow.endMs, currentWindow.endMs);
    SideOfOne(a, start, end);
    SideOfOne(b, start, end);
    var left, right := [Item(0, a)], [Item(0, b)];
    var c := Candidate(MatchScore(a, b, 1.0, tm), 0, 0, 1.0);
    CandidatesOfTwo(a, b, sameGlobal, tm);
    assert [c][1..] == [] && [c] + [] == [c];
    SortOne(c, CandidateLe);
    assert Greedy([c], {}, {}) == [c] + Greedy([], {0}, {0}) == [c];
    assert Chosen(left, right, sameGlobal, tm) == [c];
  }

  lemma SideOfOne(a: Segment, start: int, end: int)
    requires Touches(a, start, end)
    ensures Side([a], start, end) == [Item(0, a)]
  {
    hide Touches, TimeLe;
    assert Selected([a], start, end, 0) == [];
    assert Selected([a], start, end, 1) == [Item(0, a)];
    SortOne(Item(0, a), ItemLe);
  }

  lemma CandidatesOfTwo(a: Segment, b: Segment, sameGlobal: bool, tm: TextModel)
    requires Eligible(a, b, sameGlobal)
    ensures Candidates([Item(0, a)], [Item(0, b)], 1, 0, sameGlobal, tm)
            == [Candidate(MatchScore(a, b, 1.0, tm), 0, 0, 1.0)]
  {
    hide MatchScore, Eligible;
    var left, right := [Item(0, a)], [Item(0, b)];
    assert Candidates(left, right, 0, 0, sameGlobal, tm) == [];
    assert Position(0, 1) == 0.0;
    assert Candidates(left, right, 0, 1, sameGlobal, tm) == [CandidateAt(left, right, 0, 0, tm)];
  }

  lemma NoPairs(current: seq<Segment>, previousWindow: Option<WindowSpec>, currentWindow: WindowSpec, sameGlobal: bool,
                tm: TextModel)
    ensures Pairs([], current, previousWindow, currentWindow, sameGlobal, tm) == []
  {
    hide TimeLe, Eligible, MatchScore;
    if previousWindow.Some? {
      var start := MaxInt(previousWindow.value.startMs, currentWindow.startMs);
      var end := MinInt(previousWindow.value.endMs, currentWindow.endMs);
      assert Side([], start, end) == [];
      assert Candidates([], Side(current, start, end), 0, 0, sameGlobal, tm) == [];
      assert Chosen([], Side(current, start, end), sameGlobal, tm) == [];
    }
  }

  lemma {:induction false} SelectedTwo(s: seq<Segment>, start: int, end: int, i: nat, n: nat)
    requires n <= |s| && i + 1 < |s|
    requires forall k :: 0 <= k < |s| ==> (Touches(s[k], start, end) <==> k == i || k == i + 1)
    ensures Selected(s, start, end, n)
            == (if n > i then [Item(i, s[i])] else []) + (if n > i + 1 then [Item(i + 1, s[i + 1])] else [])
  {
    hide Touches;
    if n > 0 {
      SelectedTwo(s, start, end, i, n - 1);
    }
  }

  /** Two utterances that touch the overlap, one after the other. */
  lemma SideOfTwo(s: seq<Segment>, start: int, end: int, i: nat)
    requires i + 1 < |s| && forall k :: 0 <= k < |s| ==> (Touches(s[k], start, end) <==> k == i || k == i + 1)
    requires s[i].startMs < s[i + 1].startMs
    ensures Side(s, start, end) == [Item(i, s[i]), Item(i + 1, s[i + 1])]
  {
    hide Touches;
    SelectedTwo(s, start, end, i, |s|);
    SortTwo(Item(i, s[i]), Item(i + 1, s[i + 1]), ItemLe);
  }

  lemma CandidatesOfFour(left: seq<Item>, right: seq<Item>, sameGlobal: bool, tm: TextModel)
    requires |left| == 2 && |right| == 2
    requires Eligible(left[0].segment, right[0].segment, sameGlobal)
    requires Eligible(left[1].segment, right[1].segment, sameGlobal)
    requires !Eligible(left[0].segment, right[1].segment, sameGlobal)
    requires !Eligible(left[1].segment, right[0].segment, sameGlobal)
    ensures Candidates(left, right, 2, 0, sameGlobal, tm)
            == [Candidate(MatchScore(left[0].segment, right[0].segment, 1.0, tm), 0, 0, 1.0),
                Candidate(MatchScore(left[1].segment, right[1].segment, 1.0, tm), 1, 1, 1.0)]
  {
    hide Eligible, MatchScore;
    assert Position(0, 2) == 0.0 && Position(1, 2) == 1.0;
    assert Candidates(left, right, 0, 0, sameGlobal, tm) == [];
    assert Candidates(left, right, 0, 1, sameGlobal, tm) == [CandidateAt(left, right, 0, 0, tm)];
    assert Candidates(left, right, 0, 2, sameGlobal, tm) == [CandidateAt(left, right, 0, 0, tm)];
    assert Candidates(left, right, 1, 0, sameGlobal, tm) == [CandidateAt(left, right, 0, 0, tm)];
    assert Candidates(left, right, 1, 1, sameGlobal, tm) == [CandidateAt(left, right, 0, 0, tm)];
  }

  lemma GreedyTwo(c: Candidate, d: Candidate)
    requires c.i != d.i && c.j != d.j
    ensures Greedy([c, d], {}, {}) == [c, d]
  {
    assert [c, d][1..] == [d] && [d][1..] == [];
    assert Greedy([d], {} + {c.i}, {} + {c.j}) == [d] + Greedy([], {} + {c.i} + {d.i}, {} + {c.j} + {d.j}) == [d];
    assert [c] + [d] == [c, d];
  }

  lemma ChosenOfFour(left: seq<Item>, right: seq<Item>, sameGlobal: bool, tm: TextModel)
    requires |left| == 2 && |right| == 2
    requires Eligible(left[0].segment, right[0].segment, sameGlobal)
    requires Eligible(left[1].segment, right[1].segment, sameGlobal)
    requires !Eligible(left[0].segment, right[1].segment, sameGlobal)
    requires !Eligible(left[1].segment, right[0].segment, sameGlobal)
    ensures var c := Candidate(MatchScore(left[0].segment, right[0].segment, 1.0, tm), 0, 0, 1.0);
            var d := Candidate(MatchScore(left[1].segment, right[1].segment, 1.0, tm), 1, 1, 1.0);
            Chosen(left, right, sameGlobal, tm) == if c.score >= d.score then [c, d] else [d, c]
  {
    hide Eligible, MatchScore, Candidates, Greedy;
    var c := Candidate(MatchScore(left[0].segment, right[0].segment, 1.0, tm), 0, 0, 1.0);
    var d := Candidate(MatchScore(left[1].segment, right[1].segment, 1.0, tm), 1, 1, 1.0);
    CandidatesOfFour(left, right, sameGlobal, tm);
    SortTwo(c, d, CandidateLe);
    GreedyTwo(c, d);
    GreedyTwo(d, c);
  }

  /** Two utterances on each side that can be matched only first with first and second with
      second: both pairs are chosen, the better one first. */
  lemma PairsOfFour(previous: seq<Segment>, current: seq<Segment>, previousWindow: WindowSpec,
                    currentWindow: WindowSpec, sameGlobal: bool, tm: TextModel, i: nat, j: nat)
    requires i + 1 < |previous| && j + 1 < |current|
    requires var start, end := MaxInt(previousWindow.startMs, currentWindow.startMs),
                               MinInt(previousWindow.endMs, currentWindow.endMs);
             && start < end
             && (forall k :: 0 <= k < |previous| ==> (Touches(previous[k], start, end) <==> k == i || k == i + 1))
             && (forall k :: 0 <= k < |current| ==> (Touches(current[k], start, end) <==> k == j || k == j + 1))
    requires previous[i].startMs < previous[i + 1].startMs && current[j].startMs < current[j + 1].startMs
    requires Eligible(previous[i], current[j], sameGlobal) && Eligible(previous[i + 1], current[j + 1], sameGlobal)
    requires !Overlap(previous[i], current[j + 1]) && !Overlap(previous[i + 1], current[j])
    ensures var m := Match(i, j, MatchScore(previous[i], current[j], 1.0, tm), 1.0);
            var n := Match(i + 1, j + 1, MatchScore(previous[i + 1], current[j + 1], 1.0, tm), 1.0);
            Pairs(previous, current, Some(previousWindow), currentWindow, sameGlobal, tm)
            == if m.score >= n.score then [m, n] else [n, m]
  {
    hide MatchScore, Touches, Chosen, Side;
    var start, end := MaxInt(previousWindow.startMs, currentWindow.startMs),
      MinInt(previousWindow.endMs, currentWindow.endMs);
    SideOfTwo(previous, start, end, i);
    SideOfTwo(current, start, end, j);
    var left := [Item(i, previous[i]), Item(i + 1, previous[i + 1])];
    var right := [Item(j, current[j]), Item(j + 1, current[j + 1])];
    ChosenOfFour(left, right, sameGlobal, tm);
  }

  lemma MatchesSound(left: seq<Item>, right: seq<Item>, g: seq<Candidate>, previous: seq<Segment>,
                     current: seq<Segment>,
                     sameGlobal: bool, tm: TextModel)
    requires forall p :: 0 <= p < |g| ==>
               g[p].i < |left| && g[p].j < |right| && CandidateOf(g[p], left, right, sameGlobal, tm)
    requires OneToOne(g)
    requires forall p :: 0 <= p < |left| ==> left[p].index < |previous| && left[p].segment == previous[left[p].index]
    requires forall p :: 0 <= p < |right| ==> right[p].index < |current| && right[p].segment == current[right[p].index]
    requires forall p, q :: 0 <= p < q < |left| ==> left[p].index != left[q].index
    requires forall p, q :: 0 <= p < q < |right| ==> right[p].index != right[q].index
    ensures var ms := Matches(left, right, g);
            && |ms| == |g|
            && (forall p :: 0 <= p < |ms| ==>
                              && ms[p].left < |previous| && ms[p].right < |current|
                              && Eligible(previous[ms[p].left], current[ms[p].right], sameGlobal))
            && (forall p, q :: 0 <= p < q < |ms| ==> ms[p].left != ms[q].left && ms[p].right != ms[q].right)
  {
    hide Eligible, CandidateAt;
    var ms := Matches(left, right, g);
    forall p, q | 0 <= p < q < |ms|
      ensures ms[p].left != ms[q].left && ms[p].right != ms[q].right
    {
      assert g[p].i != g[q].i && g[p].j != g[q].j;
    }
  }

  /** Scores of pairs are confidences, whatever the segments look like. */
  lemma PairsScored(previous: seq<Segment>, current: seq<Segment>, previousWindow: Option<WindowSpec>,
                    currentWindow: WindowSpec, sameGlobal: bool, tm: TextModel)
    ensures forall m :: m in Pairs(previous, current, previousWindow, currentWindow, sameGlobal, tm) ==>
              0.0 <= m.score <= 1.0
  {
    forall m | m in Pairs(previous, current, previousWindow, currentWindow, sameGlobal, tm)
      ensures 0.0 <= m.score <= 1.0
    {
      var start := MaxInt(previousWindow.value.startMs, currentWindow.startMs);
      var end := MinInt(previousWindow.value.endMs, currentWindow.endMs);
      var left, right := Side(previous, start, end), Side(current, start, end);
      var g := Chosen(left, right, sameGlobal, tm);
      var p :| 0 <= p < |g| && m == MatchOf(left, right, g[p]);
      ScoreUnit(left[g[p].i].segment, right[g[p].j].segment, g[p].order, tm);
    }
  }

  /** Every pair carries the score of its two utterances. */
  lemma PairScores(previous: seq<Segment>, current: seq<Segment>, previousWindow: Option<WindowSpec>,
                   currentWindow: WindowSpec, sameGlobal: bool, tm: TextModel)
    ensures forall m :: m in Pairs(previous, current, previousWindow, currentWindow, sameGlobal, tm) ==>
                          && m.left < |previous| && m.right < |current|
                          && Overlap(previous[m.left], current[m.right])
                          && m.score == MatchScore(previous[m.left], current[m.right], m.order, tm)
  {
    hide MatchScore, Side, Chosen;
    forall m | m in Pairs(previous, current, previousWindow, currentWindow, sameGlobal, tm)
      ensures && m.left < |previous| && m.right < |current|
              && Overlap(previous[m.left], current[m.right])
              && m.score == MatchScore(previous[m.left], current[m.right], m.order, tm)
    {
      var start := MaxInt(previousWindow.value.startMs, currentWindow.startMs);
      var end := MinInt(previousWindow.value.endMs, currentWindow.endMs);
      var left, right := Side(previous, start, end), Side(current, start, end);
      SideMembers(previous, start, end);
      SideMembers(current, start, end);
      var g := Chosen(left, right, sameGlobal, tm);
      var p :| 0 <= p < |g| && m == MatchOf(left, right, g[p]);
      assert CandidateOf(g[p], left, right, sameGlobal, tm);
    }
  }

  /** Every eligible pair the greedy choice left out shares an end with a chosen pair of
      at least its score, and the choice reaches half the best possible total. */
  lemma ChosenNearOptimal(left: seq<Item>, right: seq<Item>, sameGlobal: bool, tm: TextModel, m: seq<Candidate>)
    requires OneToOne(m) && forall p :: 0 <= p < |m| ==> CandidateOf(m[p], left, right, sameGlobal, tm)
    ensures Total(m) <= 2.0 * Total(Chosen(left, right, sameGlobal, tm))
    ensures forall c :: CandidateOf(c, left, right, sameGlobal, tm) ==>
                          exists g :: g in Chosen(left, right, sameGlobal, tm) && g.score >= c.score
                            && (g.i == c.i || g.j == c.j)
  {
    var cs := Ranked(left, right, sameGlobal, tm);
    RankedSound(left, right, sameGlobal, tm);
    forall c | c in cs
      ensures c.score >= 0.0
    {
      ScoreUnit(left[c.i].segment, right[c.j].segment, c.order, tm);
    }
    GreedyHalfOptimal(cs, {}, {}, m);
    forall c | CandidateOf(c, left, right, sameGlobal, tm)
      ensures exists g :: g in Chosen(left, right, sameGlobal, tm) && g.score >= c.score && (g.i == c.i || g.j == c.j)
    {
      GreedyBlocks(cs, {}, {}, c);
    }
  }

  /** The same words over the same stretch of time. */
  predicate SameSpeech(a: Segment, b: Segment, tm: TextModel) {
    a.startMs == b.startMs && a.endMs == b.endMs && tm.normalize(a.text) == tm.normalize(b.text)
  }

  /** One utterance and two candidates for it that say the same at the same time: the nearer
      in the order is the better candidate. */
  lemma NearerIsBetter(c: Candidate, d: Candidate, left: seq<Item>, right: seq<Item>, sameGlobal: bool, tm: TextModel)
    requires CandidateOf(c, left, right, sameGlobal, tm) && CandidateOf(d, left, right, sameGlobal, tm)
    requires SameSpeech(left[c.i].segment, left[d.i].segment, tm)
    requires SameSpeech(right[c.j].segment, right[d.j].segment, tm)
    requires Apart(c.i, c.j, |left|, |right|) < Apart(d.i, d.j, |left|, |right|)
    ensures c.score > d.score
  {
    NearerScoresHigher(c.i, c.j, d.i, d.j, |left|, |right|);
    OrderScoreRange(c.i, c.j, |left|, |right|);
    OrderScoreRange(d.i, d.j, |left|, |right|);
  }

  /** The farther of two such candidates is chosen only if the other one's free end went to a
      candidate at least as good. */
  lemma FartherOnlyIfTaken(c: Candidate, d: Candidate, left: seq<Item>, right: seq<Item>, sameGlobal: bool,
                           tm: TextModel)
    requires CandidateOf(c, left, right, sameGlobal, tm) && d in Chosen(left, right, sameGlobal, tm)
    requires c.i == d.i || c.j == d.j
    requires SameSpeech(left[c.i].segment, left[d.i].segment, tm)
    requires SameSpeech(right[c.j].segment, right[d.j].segment, tm)
    requires Apart(c.i, c.j, |left|, |right|) < Apart(d.i, d.j, |left|, |right|)
    ensures c.score > d.score
    ensures exists g :: g in Chosen(left, right, sameGlobal, tm) && g.score >= c.score
              && if c.i == d.i then g.j == c.j else g.i == c.i
  {
    hide SameSpeech, Apart, CandidateOf;
    var chosen := Chosen(left, right, sameGlobal, tm);
    assert CandidateOf(d, left, right, sameGlobal, tm);
    NearerIsBetter(c, d, left, right, sameGlobal, tm);
    assert OneToOne([]);
    ChosenNearOptimal(left, right, sameGlobal, tm, []);
    var g :| g in chosen && g.score >= c.score && (g.i == c.i || g.j == c.j);
    var p :| 0 <= p < |chosen| && chosen[p] == g;
    var q :| 0 <= q < |chosen| && chosen[q] == d;
    assert p != q;
  }

  /** The segments of both windows that touch the overlap, in time order. */
  function Sides(previous: seq<Segment>, current: seq<Segment>, previousWindow: WindowSpec,
                 currentWindow: WindowSpec): (seq<Item>, seq<Item>)
  {
    var start := MaxInt(previousWindow.startMs, currentWindow.startMs);
    var end := MinInt(previousWindow.endMs, currentWindow.endMs);
    (Side(previous, start, end), Side(current, start, end))
  }

  /** Every pair stands at two places of the sides, and its order is the order score of these. */
  lemma PairPlaces(previous: seq<Segment>, current: seq<Segment>, previousWindow: WindowSpec,
                   currentWindow: WindowSpec, sameGlobal: bool, tm: TextModel, m: Match)
    returns (i: nat, j: nat)
    requires m in Pairs(previous, current, Some(previousWindow), currentWindow, sameGlobal, tm)
    ensures var (left, right) := Sides(previous, current, previousWindow, currentWindow);
            && i < |left| && j < |right| && m.left < |previous| && m.right < |current|
            && left[i] == Item(m.left, previous[m.left]) && right[j] == Item(m.right, current[m.right])
            && m.order == OrderScore(i, j, |left|, |right|)
  {
    hide MatchScore, Side, Chosen, OrderScore;
    var start := MaxInt(previousWindow.startMs, currentWindow.startMs);
    var end := MinInt(previousWindow.endMs, currentWindow.endMs);
    var left, right := Side(previous, start, end), Side(current, start, end);
    SideMembers(previous, start, end);
    SideMembers(current, start, end);
    var g := Chosen(left, right, sameGlobal, tm);
    var p :| 0 <= p < |g| && m == MatchOf(left, right, g[p]);
    assert CandidateOf(g[p], left, right, sameGlobal, tm);
    i, j := g[p].i, g[p].j;
    assert left[i] in left && right[j] in right;
  }

  method OverlapPairs(previous: seq<Segment>, current: seq<Segment>, previousWindow: Option<WindowSpec>,
                      currentWindow: WindowSpec, sameGlobal: bool, tm: TextModel) returns (pairs: seq<Match>)
    ensures pairs == Pairs(previous, current, previousWindow, currentWindow, sameGlobal, tm)
  {
    if previousWindow.None? {
      return [];
    }
    var start := MaxInt(previousWindow.value.startMs, currentWindow.startMs);
    var end := MinInt(previousWindow.value.endMs, currentWindow.endMs);
    if start >= end {
      return [];
    }
    var left, right := Side(previous, start, end), Side(current, start, end);
    pairs := ChoosePairs(left, right, sameGlobal, tm);
  }

  method CollectCandidates(left: seq<Item>, right: seq<Item>, sameGlobal: bool, tm: TextModel)
    returns (candidates: seq<Candidate>)
    ensures candidates == Candidates(left, right, |left|, 0, sameGlobal, tm)
  {
    hide Eligible;
    candidates := [];
    for i := 0 to |left|
      invariant candidates == Candidates(left, right, i, 0, sameGlobal, tm)
    {
      for j := 0 to |right|
        invariant candidates == Candidates(left, right, i, j, sameGlobal, tm)
      {
        if Eligible(left[i].segment, right[j].segment, sameGlobal) {
          candidates := candidates + [CandidateAt(left, right, i, j, tm)];
        }
      }
    }
  }

  /** The matches stand, one by one, for the chosen candidates. */
  predicate Pairing(pairs: seq<Match>, chosen: seq<Candidate>, left: seq<Item>, right: seq<Item>) {
    && |pairs| == |chosen|
    && forall p :: 0 <= p < |chosen| ==>
                     chosen[p].i < |left| && chosen[p].j < |right| && pairs[p] == MatchOf(left, right, chosen[p])
  }

  lemma NothingPaired(left: seq<Item>, right: seq<Item>)
    ensures Pairing([], [], left, right)
  {
  }

  lemma PairingAppend(pairs: seq<Match>, chosen: seq<Candidate>, left: seq<Item>, right: seq<Item>, c: Candidate)
    requires Pairing(pairs, chosen, left, right) && c.i < |left| && c.j < |right|
    ensures Pairing(pairs + [MatchOf(left, right, c)], chosen + [c], left, right)
  {
  }

  /** Candidates in order of their rank, each taken unless one of its ends is used up. */
  method ChoosePairs(left: seq<Item>, right: seq<Item>, sameGlobal: bool, tm: TextModel) returns (pairs: seq<Match>)
    ensures Pairing(pairs, Chosen(left, right, sameGlobal, tm), left, right)
  {
    hide Eligible, Candidates, Greedy, CandidateLe, Pairing;
    NothingPaired(left, right);
    var candidates := CollectCandidates(left, right, sameGlobal, tm);
    var ranked := Sort(candidates, CandidateLe);
    RankedSound(left, right, sameGlobal, tm);
    var usedLeft: set<nat>, usedRight: set<nat> := {}, {};
    ghost var chosen: seq<Candidate> := [];
    pairs := [];
    assert ranked[0..] == ranked;
    for k := 0 to |ranked|
      invariant chosen + Greedy(ranked[k..], usedLeft, usedRight) == Greedy(ranked, {}, {})
      invariant Pairing(pairs, chosen, left, right)
    {
      var c := ranked[k];
      assert c in ranked;
      GreedyFrom(ranked, k, usedLeft, usedRight);
      if c.i !in usedLeft && c.j !in usedRight {
        PairingAppend(pairs, chosen, left, right, c);
        assert (chosen + [c]) + Greedy(ranked[k + 1..], usedLeft + {c.i}, usedRight + {c.j})
            == chosen + ([c] + Greedy(ranked[k + 1..], usedLeft + {c.i}, usedRight + {c.j}));
        pairs, chosen := pairs + [MatchOf(left, right, c)], chosen + [c];
        usedLeft, usedRight := usedLeft + {c.i}, usedRight + {c.j};
      }
    }
    GreedyFrom(ranked, |ranked|, usedLeft, usedRight);
    assert chosen + [] == chosen;
    assert ranked[0..] == ranked;
    assert chosen == Chosen(left, right, sameGlobal, tm);
  }

  /** One unfolding of the greedy choice. */
  lemma GreedyFrom(ranked: seq<Candidate>, k: nat, usedLeft: set<nat>, usedRight: set<nat>)
    requires k <= |ranked|
    ensures k == |ranked| ==> Greedy(ranked[k..], usedLeft, usedRight) == []
    ensures k < |ranked| ==>
              Greedy(ranked[k..], usedLeft, usedRight) ==
              if ranked[k].i in usedLeft || ranked[k].j in usedRight then Greedy(ranked[k + 1..], usedLeft, usedRight)
              else [ranked[k]] + Greedy(ranked[k + 1..], usedLeft + {ranked[k].i}, usedRight + {ranked[k].j})
  {
    if k < |ranked| {
      assert ranked[k..][1..] == ranked[k + 1..];
    }
  }
}

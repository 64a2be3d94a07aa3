/** SpeakerRemapper.map_adjacent of linux/backend/moss_worker/speaker_remap.py. */
module SpeakerRemap {
  import opened Wrappers
  import opened Windowing
  import opened Sorting
  import opened Segments
  import opened Matching
  import Assignment
  import opened Labels

  const MAX_ASSIGNMENT_CANDIDATES := 1000000

  datatype Entry = Entry(speaker: string, confidence: real, candidates: map<string, real>)

  datatype RemapError = InvalidSpeaker | AssignmentLimit

  type Table = map<string, map<string, Entry>>

  predicate LabelsOk(s: seq<Segment>) {
    forall i :: 0 <= i < |s| ==>
        IsLocalSpeaker(s[i].localSpeaker) && (Labelled(s[i]) ==> IsLabel(s[i].globalSpeaker.value))
  }

  predicate Known(t: Table, s: Segment) { s.windowId in t && s.localSpeaker in t[s.windowId] }

  predicate AllKnown(t: Table, current: seq<Segment>) {
    forall i :: 0 <= i < |current| ==> Known(t, current[i])
  }

  function LabelledBy(s: Segment, e: Entry): Segment {
    s.(globalSpeaker := Some(e.speaker), confidence := Some(e.confidence))
  }

  /** The output carries, segment by segment, what the table stores for it. */
  predicate ReadBack(current: seq<Segment>, output: seq<Segment>, t: Table) {
    && |output| == |current| && AllKnown(t, current)
    && forall i :: 0 <= i < |current| ==>
                     output[i] == LabelledBy(current[i], t[current[i].windowId][current[i].localSpeaker])
  }

  // ----- votes -----

  function Locals(current: seq<Segment>): set<string> { set i | 0 <= i < |current| :: current[i].localSpeaker }

  function PriorLabels(previous: seq<Segment>): set<string> {
    set i | 0 <= i < |previous| && Labelled(previous[i]) :: previous[i].globalSpeaker.value
  }

  predicate MatchesOk(ms: seq<Match>, previous: seq<Segment>, current: seq<Segment>) {
    forall p :: 0 <= p < |ms| ==> ms[p].left < |previous| && ms[p].right < |current| && ms[p].score >= 0.0
  }

  predicate VotesAt(m: Match, previous: seq<Segment>, current: seq<Segment>, l: string, g: string)
    requires m.left < |previous| && m.right < |current|
  {
    current[m.right].localSpeaker == l && Labelled(previous[m.left]) && previous[m.left].globalSpeaker.value == g
  }

  /** The scores of the matches that tie local speaker `l` to global speaker `g`. */
  function Votes(ms: seq<Match>, previous: seq<Segment>, current: seq<Segment>, l: string, g: string): seq<real>
    requires MatchesOk(ms, previous, current)
  {
    if ms == [] then []
    else
      var front := ms[..|ms| - 1];
      var last := ms[|ms| - 1];
      Votes(front, previous, current, l, g) + if VotesAt(last, previous, current, l, g) then [last.score] else []
  }

  function Sum(v: seq<real>): real { if v == [] then 0.0 else Sum(v[..|v| - 1]) + v[|v| - 1] }

  function Mean(v: seq<real>): real { if v == [] then 0.0 else Sum(v) / |v| as real }

  lemma {:induction false} VotesNonNegative(ms: seq<Match>, previous: seq<Segment>, current: seq<Segment>, l: string,
                                            g: string)
    requires MatchesOk(ms, previous, current)
    ensures Sum(Votes(ms, previous, current, l, g)) >= 0.0 && Mean(Votes(ms, previous, current, l, g)) >= 0.0
    ensures Votes(ms, previous, current, l, g) != [] ==> l in Locals(current) && g in PriorLabels(previous)
  {
    hide VotesAt, Mean;
    if ms != [] {
      var front, last := ms[..|ms| - 1], ms[|ms| - 1];
      VotesNonNegative(front, previous, current, l, g);
      var v := Votes(front, previous, current, l, g);
      if VotesAt(last, previous, current, l, g) {
        SumAppend(v, last.score);
        VoterCounts(last, previous, current, l, g);
      } else {
        assert v + [] == v;
      }
    }
    MeanNonNegative(Votes(ms, previous, current, l, g));
  }

  lemma SumAppend(v: seq<real>, x: real)
    ensures Sum(v + [x]) == Sum(v) + x
  {
    assert (v + [x])[..|v|] == v;
  }

  lemma VoterCounts(m: Match, previous: seq<Segment>, current: seq<Segment>, l: string, g: string)
    requires m.left < |previous| && m.right < |current| && VotesAt(m, previous, current, l, g)
    ensures l in Locals(current) && g in PriorLabels(previous)
  {
  }

  lemma MeanNonNegative(v: seq<real>)
    requires Sum(v) >= 0.0
    ensures Mean(v) >= 0.0
  {
    assert v != [] ==> Mean(v) * |v| as real == Sum(v);
  }

  /** The matrix cell of a pair is the mean, not the sum, of its votes. */
  function VoteMatrix(ms: seq<Match>, previous: seq<Segment>, current: seq<Segment>): Assignment.Matrix
    requires MatchesOk(ms, previous, current)
  {
    map l | l in Locals(current) ::
      map g | g in PriorLabels(previous)
        && Votes(ms, previous, current, l, g) != [] :: Mean(Votes(ms, previous, current, l, g))
  }

  lemma MatrixNonNegative(ms: seq<Match>, previous: seq<Segment>, current: seq<Segment>)
    requires MatchesOk(ms, previous, current)
    ensures Assignment.NonNegative(VoteMatrix(ms, previous, current))
  {
    forall l, g
      ensures Assignment.Cell(VoteMatrix(ms, previous, current), l, g) >= 0.0
    {
      VotesNonNegative(ms, previous, current, l, g);
    }
  }

  type Ballot = map<string, map<string, seq<real>>>

  function Cast(votes: Ballot, l: string, g: string): seq<real> {
    if l in votes && g in votes[l] then votes[l][g] else []
  }

  /** votes[l].setdefault(g, []).append(score) */
  function AddVote(votes: Ballot, l: string, g: string, score: real): (r: Ballot)
    ensures forall k, h :: Cast(r, k, h) == Cast(votes, k, h) + if k == l && h == g then [score] else []
    ensures forall k :: k in votes || k == l <==> k in r
    ensures forall k, h :: k in r && h in r[k] ==> (k in votes && h in votes[k]) || (k == l && h == g)
  {
    var cells := if l in votes then votes[l] else map[];
    votes[l := cells[g := Cast(votes, l, g) + [score]]]
  }

  ghost predicate Tallied(votes: Ballot, ms: seq<Match>, previous: seq<Segment>, current: seq<Segment>) {
    && MatchesOk(ms, previous, current)
    && votes.Keys == Locals(current)
    && (forall l, g :: l in votes && g in votes[l] ==> Cast(votes, l, g) != [])
    && (forall l, g :: Cast(votes, l, g) == Votes(ms, previous, current, l, g))
  }

  function Means(votes: Ballot): Assignment.Matrix {
    map l | l in votes :: map g | g in votes[l] :: Mean(votes[l][g])
  }

  lemma TalliedMeans(votes: Ballot, ms: seq<Match>, previous: seq<Segment>, current: seq<Segment>)
    requires Tallied(votes, ms, previous, current)
    ensures Means(votes) == VoteMatrix(ms, previous, current)
  {
    hide Votes, Mean, Cast;
    forall l | l in votes
      ensures Means(votes)[l] == VoteMatrix(ms, previous, current)[l]
    {
      TalliedRow(votes, ms, previous, current, l);
    }
  }

  lemma TalliedRow(votes: Ballot, ms: seq<Match>, previous: seq<Segment>, current: seq<Segment>, l: string)
    requires Tallied(votes, ms, previous, current) && l in votes
    ensures Means(votes)[l] == VoteMatrix(ms, previous, current)[l]
  {
    hide Votes, Mean;
    forall g
      ensures g in Means(votes)[l] <==> g in VoteMatrix(ms, previous, current)[l]
      ensures g in Means(votes)[l] ==> Means(votes)[l][g] == VoteMatrix(ms, previous, current)[l][g]
    {
      assert Cast(votes, l, g) == Votes(ms, previous, current, l, g);
      VotesNonNegative(ms, previous, current, l, g);
    }
  }

  lemma TallyOneMore(votes: Ballot, ms: seq<Match>, m: Match, previous: seq<Segment>, current: seq<Segment>)
    requires Tallied(votes, ms, previous, current) && m.left < |previous| && m.right < |current| && m.score >= 0.0
    ensures Tallied(if Labelled(previous[m.left])
                    then AddVote(votes, current[m.right].localSpeaker, previous[m.left].globalSpeaker.value, m.score)
                    else votes, ms + [m], previous, current)
  {
    hide Votes, VotesAt, AddVote;
    var l0 := current[m.right].localSpeaker;
    assert l0 in Locals(current);
    forall l, g
      ensures Votes(ms + [m], previous, current, l, g) ==
              Votes(ms, previous, current, l, g)
              + if l == l0 && Labelled(previous[m.left]) && g == previous[m.left].globalSpeaker.value then [m.score]
                else []
    {
      VotesOneMore(ms, m, previous, current, l, g);
    }
  }

  lemma VotesOneMore(ms: seq<Match>, m: Match, previous: seq<Segment>, current: seq<Segment>, l: string, g: string)
    requires MatchesOk(ms, previous, current) && m.left < |previous| && m.right < |current| && m.score >= 0.0
    ensures MatchesOk(ms + [m], previous, current)
    ensures Votes(ms + [m], previous, current, l, g) ==
            Votes(ms, previous, current, l, g)
            + if l == current[m.right].localSpeaker && Labelled(previous[m.left])
              && g == previous[m.left].globalSpeaker.value then [m.score] else []
  {
    assert (ms + [m])[|ms|] == m && (ms + [m])[..|ms|] == ms;
  }

  method CountVotes(ms: seq<Match>, previous: seq<Segment>, current: seq<Segment>) returns (matrix: Assignment.Matrix)
    requires MatchesOk(ms, previous, current)
    ensures matrix == VoteMatrix(ms, previous, current)
  {
    var votes: Ballot := map l | l in Locals(current) :: map[];
    for k := 0 to |ms|
      invariant Tallied(votes, ms[..k], previous, current)
    {
      var m := ms[k];
      assert ms[..k + 1] == ms[..k] + [m];
      TallyOneMore(votes, ms[..k], m, previous, current);
      if Labelled(previous[m.left]) {
        votes := AddVote(votes, current[m.right].localSpeaker, previous[m.left].globalSpeaker.value, m.score);
      }
    }
    assert ms[..|ms|] == ms;
    TalliedMeans(votes, ms, previous, current);
    matrix := Means(votes);
  }

  method SortedList(s: set<string>) returns (r: seq<string>)
    ensures NoDuplicates(r) && Assignment.Elements(r) == s && |r| == |s| && Sorted(r, TextLe)
  {
    var items: seq<string> := [];
    var todo := s;
    while todo != {}
      invariant NoDuplicates(items) && Assignment.Elements(items) == s - todo && todo <= s
      decreases todo
    {
      var x :| x in todo;
      assert x !in Assignment.Elements(items);
      assert Assignment.Elements(items + [x]) == Assignment.Elements(items) + {x};
      items, todo := items + [x], todo - {x};
    }
    r := Sort(items, TextLe);
    SortNoDuplicates(items, TextLe);
    SortElements(items, TextLe);
    forall x
      ensures x in r <==> x in items
    {
      SortMembers(items, TextLe, x);
    }
    assert forall x :: x in items <==> x in Assignment.Elements(items);
    Assignment.ElementsSize(r);
    forall a: string, b: string, c: string
      ensures TextLe(a, b) || TextLe(b, a)
      ensures TextLe(a, b) && TextLe(b, c) ==> TextLe(a, c)
    {
      TextLeTotal(a, b);
      if TextLe(a, b) && TextLe(b, c) {
        TextLeTransitive(a, b, c);
      }
    }
    SortSorted(items, TextLe);
  }

  // ----- the remapper -----

  predicate HasCell(t: Table, w: string, l: string) { w in t && l in t[w] }

  /** Every stored label is a label whose number was allocated before `next`. */
  ghost predicate TableBelow(t: Table, next: nat) {
    forall w, l :: HasCell(t, w, l) ==> IsLabel(t[w][l].speaker) && LabelNumber(t[w][l].speaker) < next
  }

  predicate LabelsBelow(s: seq<Segment>, next: nat) {
    forall i :: 0 <= i < |s| && Labelled(s[i]) ==>
                  IsLabel(s[i].globalSpeaker.value) && LabelNumber(s[i].globalSpeaker.value) < next
  }

  /** The least next number that is not below `before` and above every label of `s`. */
  ghost predicate NextAfter(s: seq<Segment>, before: nat, next: nat) {
    && before <= next && LabelsBelow(s, next)
    && (next == before || HasNumber(s, next - 1))
  }

  ghost predicate HasNumber(s: seq<Segment>, n: int) {
    exists i :: 0 <= i < |s| && Labelled(s[i]) && IsLabel(s[i].globalSpeaker.value)
      && LabelNumber(s[i].globalSpeaker.value) == n
  }

  type EntryMap = map<string, Entry>

  predicate DistinctSpeakers(m: EntryMap) {
    forall l, k :: l in m && k in m && l != k ==> m[l].speaker != m[k].speaker
  }

  /** The stored entries of the locals that occur in `current`; a later segment's entry wins. */
  function Existing(t: Table, current: seq<Segment>): EntryMap {
    if current == [] then map[]
    else
      var s := current[|current| - 1];
      var rest := Existing(t, current[..|current| - 1]);
      if Known(t, s) then rest[s.localSpeaker := t[s.windowId][s.localSpeaker]] else rest
  }

  lemma {:induction false} ExistingStored(t: Table, current: seq<Segment>, l: string)
    requires l in Existing(t, current)
    ensures exists i :: 0 <= i < |current| && current[i].localSpeaker == l && Known(t, current[i])
                        && Existing(t, current)[l] == t[current[i].windowId][l]
  {
    var n := |current| - 1;
    if Known(t, current[n]) && current[n].localSpeaker == l {
    } else {
      ExistingStored(t, current[..n], l);
      var i :| 0 <= i < n && current[..n][i].localSpeaker == l && Known(t, current[..n][i])
               && Existing(t, current[..n])[l] == t[current[..n][i].windowId][l];
      assert current[i] == current[..n][i];
    }
  }

  function BestCell(l: string, best: Assignment.Mapping, matrix: Assignment.Matrix): real {
    if l in best then Assignment.Cell(matrix, l, best[l]) else 0.0
  }

  /** A local follows the best assignment where its confidence reaches 0.85 and gets a
      newly allocated number elsewhere; the candidates it had are kept as evidence. */
  predicate DecidedBy(e: Entry, l: string, best: Assignment.Mapping, matrix: Assignment.Matrix, before: nat,
                      after: nat) {
    && e.confidence == BestCell(l, best, matrix)
    && l in matrix && e.candidates == matrix[l]
    && (e.confidence >= 0.85 ==> l in best && e.speaker == best[l])
    && (e.confidence < 0.85 ==> IsLabel(e.speaker) && before <= LabelNumber(e.speaker) < after)
  }

  /** How many of the locals got a new number. */
  function Allocated(mapping: EntryMap, locals: seq<string>): nat {
    if locals == [] then 0
    else
      var l := locals[|locals| - 1];
      Allocated(mapping, locals[..|locals| - 1]) + if l in mapping && mapping[l].confidence < 0.85 then 1 else 0
  }

  lemma {:induction false} AllocatedElsewhere(mapping: EntryMap, locals: seq<string>, l: string, e: Entry)
    requires l !in locals
    ensures Allocated(mapping[l := e], locals) == Allocated(mapping, locals)
  {
    if locals != [] {
      AllocatedElsewhere(mapping, locals[..|locals| - 1], l, e);
    }
  }

  /** New numbers are handed out in the order of the locals, without a gap. */
  ghost predicate Numbered(mapping: EntryMap, locals: seq<string>, before: nat, after: nat) {
    && after == before + Allocated(mapping, locals)
    && forall k :: 0 <= k < |locals| ==> NumberedAt(mapping, locals, before, k)
  }

  predicate NumberedAt(mapping: EntryMap, locals: seq<string>, before: nat, k: nat)
    requires k < |locals|
  {
    locals[k] in mapping
    && (mapping[locals[k]].confidence < 0.85 ==>
        mapping[locals[k]].speaker == Label(before + Allocated(mapping, locals[..k])))
  }

  lemma NumberedOneMore(mapping: EntryMap, done: seq<string>, l: string, e: Entry, before: nat, next: nat)
    requires Numbered(mapping, done, before, next) && l !in done && (e.confidence < 0.85 ==> e.speaker == Label(next))
    ensures Numbered(mapping[l := e], done + [l], before, if e.confidence < 0.85 then next + 1 else next)
  {
    hide Label, Allocated;
    var m, all := mapping[l := e], done + [l];
    AllocatedOneMore(mapping, done, l, e);
    assert all[..|done|] == done;
    forall k | 0 <= k < |done|
      ensures NumberedAt(m, all, before, k)
    {
      assert NumberedAt(mapping, done, before, k);
      assert all[..k] == done[..k] && done[k] in done;
      AllocatedElsewhere(mapping, done[..k], l, e);
    }
    assert NumberedAt(m, all, before, |done|);
  }

  lemma AllocatedOneMore(mapping: EntryMap, done: seq<string>, l: string, e: Entry)
    requires l !in done
    ensures Allocated(mapping[l := e], done) == Allocated(mapping, done)
    ensures Allocated(mapping[l := e], done + [l]) == Allocated(mapping, done) + if e.confidence < 0.85 then 1 else 0
  {
    assert (done + [l])[..|done|] == done;
    AllocatedElsewhere(mapping, done, l, e);
  }

  /** What deciding the new locals adds to the stored entries. */
  ghost predicate Decision(mapping: EntryMap, existing: EntryMap, locals: seq<string>, best: Assignment.Mapping,
                           matrix: Assignment.Matrix, before: nat, after: nat)
  {
    && before <= after
    && (forall l :: l in mapping <==> l in existing || l in locals)
    && (forall l :: l in existing ==> l !in locals && mapping[l] == existing[l])
    && (forall l :: l in locals ==> DecidedBy(mapping[l], l, best, matrix, before, after))
    && (forall l, k :: l in locals && k in locals && l != k ==> mapping[l].speaker != mapping[k].speaker)
    && Numbered(mapping, locals, before, after)
  }

  ghost predicate BestBelow(best: Assignment.Mapping, next: nat) {
    Assignment.Injective(best) && forall l :: l in best ==> IsLabel(best[l]) && LabelNumber(best[l]) < next
  }

  lemma NothingDecided(existing: EntryMap, best: Assignment.Mapping, matrix: Assignment.Matrix, next: nat)
    ensures Decision(existing, existing, [], best, matrix, next, next)
  {
  }

  lemma TableStaysBelow(t: Table, next: nat, more: nat)
    requires TableBelow(t, next) && next <= more
    ensures TableBelow(t, more)
  {
  }

  lemma DecisionOneMore(mapping: EntryMap, existing: EntryMap, done: seq<string>, l: string, e: Entry,
                        best: Assignment.Mapping, matrix: Assignment.Matrix, before: nat, next: nat, after: nat)
    requires Decision(mapping, existing, done, best, matrix, before, next) && BestBelow(best, before)
    requires l !in done && l !in existing && DecidedBy(e, l, best, matrix, next, after)
    requires after == (if e.confidence < 0.85 then next + 1 else next)
             && (e.confidence < 0.85 ==> e.speaker == Label(next))
    ensures Decision(mapping[l := e], existing, done + [l], best, matrix, before, after)
  {
    hide Numbered, Label, LabelNumber;
    var m := mapping[l := e];
    NumberedOneMore(mapping, done, l, e, before, next);
    forall k | k in done
      ensures DecidedBy(m[k], k, best, matrix, before, after) && m[k].speaker != e.speaker
    {
      assert DecidedBy(mapping[k], k, best, matrix, before, next);
    }
  }

  // ----- one call, as relations between its inputs, its table and its result -----

  function NewLocals(t: Table, current: seq<Segment>): set<string> { Locals(current) - Existing(t, current).Keys }

  function Reserved(t: Table, current: seq<Segment>): set<string> {
    var existing := Existing(t, current);
    set l | l in existing :: existing[l].speaker
  }

  /** Labels a new local may take: voted for, and not held by a local already mapped. */
  function Pool(matrix: Assignment.Matrix, t: Table, current: seq<Segment>): set<string> {
    (set l, g | l in NewLocals(t, current) && l in matrix && g in matrix[l] :: g) - Reserved(t, current)
  }

  function AssignmentCount(a: nat, b: nat): nat {
    if a >= b then Assignment.Perm(a, b) else Assignment.Perm(b, a)
  }

  /** The decision of one call: over which locals and labels, along which best assignment. */
  datatype Trail = Trail(mapping: EntryMap, best: Assignment.Mapping, locals: seq<string>, globals: seq<string>,
                         next: nat)

  /** `best` maximises total confidence over all partial one-to-one maps from the new
      locals to the pool, before any threshold, and is the first to do so. */
  ghost predicate Optimal(d: Trail, matrix: Assignment.Matrix) {
    Assignment.Highest(d.best, d.locals, d.globals, matrix) && Assignment.FirstBest(d.best, d.locals, d.globals, matrix)
  }

  ghost predicate Remapped(d: Trail, previous: seq<Segment>, current: seq<Segment>, matrix: Assignment.Matrix,
                           t: Table, before: nat, t': Table, after: nat)
  {
    && NoDuplicates(d.locals) && Sorted(d.locals, TextLe) && Assignment.Elements(d.locals) == NewLocals(t, current)
    && NoDuplicates(d.globals) && Sorted(d.globals, TextLe)
      && Assignment.Elements(d.globals) == Pool(matrix, t, current)
    && Optimal(d, matrix)
    && before <= d.next && LabelsBelow(previous, d.next) && LabelsBelow(current, d.next)
    && (d.next == before || HasNumber(previous, d.next - 1) || HasNumber(current, d.next - 1))
    && Decision(d.mapping, Existing(t, current), d.locals, d.best, matrix, d.next, after)
    && Locals(current) <= d.mapping.Keys
    && t' == Stored(t, current, d.mapping)
  }

  function Row(t: Table, w: string): EntryMap { if w in t then t[w] else map[] }

  function Stored(t: Table, current: seq<Segment>, mapping: EntryMap): Table
    requires Locals(current) <= mapping.Keys
  {
    if current == [] then t
    else
      var front := current[..|current| - 1];
      var s := current[|current| - 1];
      assert Locals(front) <= Locals(current) && s.localSpeaker in Locals(current);
      var r := Stored(t, front, mapping);
      r[s.windowId := Row(r, s.windowId)[s.localSpeaker := mapping[s.localSpeaker]]]
  }

  predicate Occurs(current: seq<Segment>, w: string, l: string) {
    exists i :: 0 <= i < |current| && current[i].windowId == w && current[i].localSpeaker == l
  }

  /** Storing writes each segment's cell and no other. */
  lemma {:induction false} StoredCell(t: Table, current: seq<Segment>, mapping: EntryMap, w: string, l: string)
    requires Locals(current) <= mapping.Keys
    ensures var r := Stored(t, current, mapping);
            && (HasCell(r, w, l) <==> HasCell(t, w, l) || Occurs(current, w, l))
            && (Occurs(current, w, l) ==> l in mapping && r[w][l] == mapping[l])
            && (HasCell(t, w, l) && !Occurs(current, w, l) ==> r[w][l] == t[w][l])
  {
    if current != [] {
      var n := |current| - 1;
      var front := current[..n];
      var s := current[n];
      assert Locals(front) <= Locals(current) && s.localSpeaker in Locals(current);
      StoredCell(t, front, mapping, w, l);
      assert Occurs(current, w, l) <==> Occurs(front, w, l) || (s.windowId == w && s.localSpeaker == l) by {
        if i :| 0 <= i < |current| && current[i].windowId == w && current[i].localSpeaker == l && i < n {
          assert front[i] == current[i];
        }
        if i :| 0 <= i < n && front[i].windowId == w && front[i].localSpeaker == l {
          assert front[i] == current[i];
        }
      }
    }
  }

  lemma StoredCells(t: Table, current: seq<Segment>, mapping: EntryMap)
    requires Locals(current) <= mapping.Keys
    ensures AllKnown(Stored(t, current, mapping), current)
    ensures forall w, l :: HasCell(Stored(t, current, mapping), w, l) ==>
                             (HasCell(t, w, l) && Stored(t, current, mapping)[w][l] == t[w][l])
                             || (l in mapping && Stored(t, current, mapping)[w][l] == mapping[l])
  {
    forall i | 0 <= i < |current|
      ensures Known(Stored(t, current, mapping), current[i])
    {
      StoredCell(t, current, mapping, current[i].windowId, current[i].localSpeaker);
    }
    forall w, l | HasCell(Stored(t, current, mapping), w, l)
      ensures (HasCell(t, w, l) && Stored(t, current, mapping)[w][l] == t[w][l])
              || (l in mapping && Stored(t, current, mapping)[w][l] == mapping[l])
    {
      StoredCell(t, current, mapping, w, l);
    }
  }

  /** Inside one window the new assignment is injective exactly when the entries it kept were. */
  lemma SpeakersStayDistinct(d: Trail, previous: seq<Segment>, current: seq<Segment>, matrix: Assignment.Matrix,
                             t: Table, before: nat, t': Table, after: nat)
    requires TableBelow(t, before) && Remapped(d, previous, current, matrix, t, before, t', after)
    ensures DistinctSpeakers(d.mapping) <==> DistinctSpeakers(Existing(t, current))
  {
    var existing := Existing(t, current);
    forall l, k | l in existing && k in d.locals
      ensures d.mapping[l].speaker != d.mapping[k].speaker
    {
      ExistingStored(t, current, l);
      assert existing[l].speaker in Reserved(t, current);
      assert DecidedBy(d.mapping[k], k, d.best, matrix, d.next, after);
      if d.mapping[k].confidence >= 0.85 {
        assert d.best[k] in d.globals;
        assert d.best[k] in Assignment.Elements(d.globals);
      }
    }
    forall l | l in d.mapping
      ensures l in existing || l in d.locals
    {}
  }

  /** A label allocated below the threshold is new: no stored entry and no segment has it. */
  lemma AllocatedIsNew(d: Trail, previous: seq<Segment>, current: seq<Segment>, matrix: Assignment.Matrix,
                       t: Table, before: nat, t': Table, after: nat, k: string)
    requires TableBelow(t, before) && Remapped(d, previous, current, matrix, t, before, t', after)
    requires k in d.locals && d.mapping[k].confidence < 0.85
    ensures forall w, l :: HasCell(t, w, l) ==> t[w][l].speaker != d.mapping[k].speaker
    ensures forall i :: 0 <= i < |previous| && Labelled(previous[i]) ==>
              previous[i].globalSpeaker.value != d.mapping[k].speaker
    ensures forall i :: 0 <= i < |current| && Labelled(current[i]) ==>
              current[i].globalSpeaker.value != d.mapping[k].speaker
  {
    assert DecidedBy(d.mapping[k], k, d.best, matrix, d.next, after);
  }

  lemma {:induction false} SumReaches(v: seq<real>, c: real)
    requires v != [] && Sum(v) >= c * |v| as real
    ensures exists k :: 0 <= k < |v| && v[k] >= c
  {
    var n := |v| - 1;
    if v[n] < c {
      assert c * |v| as real == c * n as real + c;
      SumReaches(v[..n], c);
      var k :| 0 <= k < n && v[..n][k] >= c;
      assert v[k] >= c;
    }
  }

  lemma MeanReaches(v: seq<real>, c: real)
    requires v != [] && Mean(v) >= c
    ensures exists k :: 0 <= k < |v| && v[k] >= c
  {
    assert Mean(v) * |v| as real == Sum(v);
    assert Mean(v) * |v| as real >= c * |v| as real;
    SumReaches(v, c);
  }

  lemma {:induction false} VoteIsCast(ms: seq<Match>, previous: seq<Segment>, current: seq<Segment>, l: string,
                                      g: string, k: nat)
    requires MatchesOk(ms, previous, current) && k < |Votes(ms, previous, current, l, g)|
    ensures exists m ::
              m in ms && m.score == Votes(ms, previous, current, l, g)[k] && VotesAt(m, previous, current, l, g)
  {
    var n := |ms| - 1;
    var front := Votes(ms[..n], previous, current, l, g);
    if k < |front| {
      VoteIsCast(ms[..n], previous, current, l, g, k);
      var m :| m in ms[..n] && m.score == front[k] && VotesAt(m, previous, current, l, g);
      assert m in ms;
    } else {
      assert ms[n] in ms && VotesAt(ms[n], previous, current, l, g);
    }
  }

  /** Two matches that vote for the same label: their mean. */
  lemma TwoVotes(ms: seq<Match>, previous: seq<Segment>, current: seq<Segment>, l: string, g: string)
    requires |ms| == 2 && MatchesOk(ms, previous, current)
    requires VotesAt(ms[0], previous, current, l, g) && VotesAt(ms[1], previous, current, l, g)
    ensures Mean(Votes(ms, previous, current, l, g)) == (ms[0].score + ms[1].score) / 2.0
    ensures g in PriorLabels(previous) && l in Locals(current)
    ensures Assignment.Cell(VoteMatrix(ms, previous, current), l, g) == (ms[0].score + ms[1].score) / 2.0
  {
    hide VotesAt, PriorLabels, Locals, Sum, Mean;
    VoterCounts(ms[0], previous, current, l, g);
    assert ms[..1][..0] == [] && ms[..2] == ms && ms[..1][0] == ms[0];
    assert Votes(ms[..1], previous, current, l, g) == [] + [ms[0].score] == [ms[0].score];
    assert Votes(ms, previous, current, l, g) == [ms[0].score] + [ms[1].score] == [ms[0].score, ms[1].score];
    MeanOfTwo(ms[0].score, ms[1].score);
  }

  lemma MeanOfTwo(x: real, y: real)
    ensures Mean([x, y]) == (x + y) / 2.0
  {
    assert [x, y][..1] == [x] && [x][..0] == [];
    assert Sum([x]) == x;
  }

  /** The evidence for a label: two utterances that agree, one of the label in the window
      before and one of the local speaker in this one. */
  ghost predicate Evidence(previous: seq<Segment>, current: seq<Segment>, tm: TextModel, l: string, g: string) {
    exists i, j :: 0 <= i < |previous| && 0 <= j < |current| && Labelled(previous[i])
      && previous[i].globalSpeaker.value == g
                   && current[j].localSpeaker == l && Alike(previous[i], current[j], tm)
  }

  lemma CellHasEvidence(previous: seq<Segment>, current: seq<Segment>, pw: Option<WindowSpec>, cw: WindowSpec,
                        tm: TextModel,
                        l: string, g: string)
    requires Assignment.Cell(MatrixOf(previous, current, pw, cw, tm), l, g) >= 0.85
    ensures Evidence(previous, current, tm, l, g)
  {
    hide Pairs, Alike, Votes, Mean, MatchScore;
    var ms := Pairs(previous, current, pw, cw, false, tm);
    PairsMatch(previous, current, pw, cw, tm);
    PairScores(previous, current, pw, cw, false, tm);
    var v := Votes(ms, previous, current, l, g);
    MeanReaches(v, 0.85);
    var k :| 0 <= k < |v| && v[k] >= 0.85;
    VoteIsCast(ms, previous, current, l, g, k);
    var m :| m in ms && m.score == v[k] && VotesAt(m, previous, current, l, g);
    HighScoreNeedsBoth(previous[m.left], current[m.right], m.order, tm);
  }

  /** No speaker is carried on without an utterance that agrees in time and in text. */
  lemma CarriedOnEvidence(d: Trail, previous: seq<Segment>, current: seq<Segment>, pw: Option<WindowSpec>,
                          cw: WindowSpec,
                          tm: TextModel, t: Table, before: nat, t': Table, after: nat, l: string)
    requires Remapped(d, previous, current, MatrixOf(previous, current, pw, cw, tm), t, before, t', after)
    requires l in d.locals && d.mapping[l].confidence >= 0.85
    ensures Evidence(previous, current, tm, l, d.mapping[l].speaker)
  {
    hide MatrixOf, Optimal, Stored, Evidence;
    var matrix := MatrixOf(previous, current, pw, cw, tm);
    assert DecidedBy(d.mapping[l], l, d.best, matrix, d.next, after);
    CellHasEvidence(previous, current, pw, cw, tm, l, d.best[l]);
  }

  /** Every label in the mapping, kept, chosen or allocated, is below the next number. */
  lemma MappingBelow(d: Trail, current: seq<Segment>, matrix: Assignment.Matrix,
                     t: Table, before: nat, after: nat, l: string)
    requires TableBelow(t, before) && BestBelow(d.best, d.next) && before <= d.next <= after
    requires Decision(d.mapping, Existing(t, current), d.locals, d.best, matrix, d.next, after) && l in d.mapping
    ensures IsLabel(d.mapping[l].speaker) && LabelNumber(d.mapping[l].speaker) < after
  {
    if l in d.locals {
      assert DecidedBy(d.mapping[l], l, d.best, matrix, d.next, after);
    } else {
      ExistingStored(t, current, l);
    }
  }

  lemma PoolBelow(ms: seq<Match>, previous: seq<Segment>, current: seq<Segment>, t: Table, next: nat)
    requires MatchesOk(ms, previous, current) && LabelsBelow(previous, next)
    ensures forall g :: g in Pool(VoteMatrix(ms, previous, current), t, current) ==> IsLabel(g) && LabelNumber(g) < next
  {
  }

  lemma MatrixRows(ms: seq<Match>, previous: seq<Segment>, current: seq<Segment>)
    requires MatchesOk(ms, previous, current)
    ensures forall l :: l in Locals(current) ==> l in VoteMatrix(ms, previous, current)
  {
  }

  lemma ListedMembers(s: seq<string>, all: set<string>)
    requires Assignment.Elements(s) == all
    ensures forall x :: x in s <==> x in all
  {
    assert forall x :: x in s <==> x in Assignment.Elements(s);
  }

  function MatrixOf(previous: seq<Segment>, current: seq<Segment>, pw: Option<WindowSpec>, cw: WindowSpec,
                    tm: TextModel)
    : Assignment.Matrix
  {
    PairsMatch(previous, current, pw, cw, tm);
    VoteMatrix(Pairs(previous, current, pw, cw, false, tm), previous, current)
  }

  predicate TooMany(matrix: Assignment.Matrix, t: Table, current: seq<Segment>) {
    AssignmentCount(|NewLocals(t, current)|, |Pool(matrix, t, current)|) > MAX_ASSIGNMENT_CANDIDATES
  }

  function Output(current: seq<Segment>, t: Table): seq<Segment>
    requires AllKnown(t, current)
  {
    seq(|current|, i requires 0 <= i < |current| =>
          LabelledBy(current[i], t[current[i].windowId][current[i].localSpeaker]))
  }

  lemma PairsMatch(previous: seq<Segment>, current: seq<Segment>, pw: Option<WindowSpec>, cw: WindowSpec, tm: TextModel)
    ensures MatchesOk(Pairs(previous, current, pw, cw, false, tm), previous, current)
  {
    var ms := Pairs(previous, current, pw, cw, false, tm);
    PairsSound(previous, current, pw, cw, false, tm);
    PairsScored(previous, current, pw, cw, false, tm);
  }

  lemma NobodyNew(matrix: Assignment.Matrix, t: Table)
    ensures !TooMany(matrix, t, [])
  {
    assert NewLocals(t, []) == {};
    assert Pool(matrix, t, []) == {};
  }

  /** What was mapped can be mapped again, and reads back as it is. */
  lemma MappedAgain(current: seq<Segment>, output: seq<Segment>, t: Table, next: nat)
    requires ReadBack(current, output, t) && TableBelow(t, next) && LabelsOk(current)
    ensures LabelsOk(output) && AllKnown(t, output)
    ensures forall again :: ReadBack(output, again, t) ==> again == output
  {
    forall i | 0 <= i < |current|
      ensures HasCell(t, current[i].windowId, current[i].localSpeaker)
    {
      assert Known(t, current[i]);
    }
  }

  /** Mapping a window that was just mapped gives the same segments, whatever window it is said
      to follow, and changes no entry. */
  method MapTwice(remapper: SpeakerRemapper, previous: seq<Segment>, current: seq<Segment>, pw: Option<WindowSpec>,
                  cw: WindowSpec,
                  other: seq<Segment>, otherWindow: Option<WindowSpec>, tm: TextModel)
    returns (first: Result<seq<Segment>, RemapError>, second: Result<seq<Segment>, RemapError>, ghost table: Table)
    requires remapper.Valid() && LabelsOk(other)
    modifies remapper
    ensures remapper.Valid()
    ensures first.Success? ==> second == first && remapper.windows == table && ReadBack(current, first.value, table)
  {
    hide Pool, NewLocals, MatrixOf, Remapped, ReadBack;
    ghost var d;
    first, d := remapper.MapAdjacent(previous, current, pw, cw, tm);
    table := remapper.windows;
    second := first;
    if first.Success? {
      MappedAgain(current, first.value, table, remapper.nextGlobalId);
      SameLength(current, first.value, table);
      if first.value == [] {
        NobodyNew(MatrixOf(other, first.value, otherWindow, cw, tm), table);
        NothingStored(table);
      }
      second, d := remapper.MapAdjacent(other, first.value, otherWindow, cw, tm);
    }
  }

  lemma SameLength(current: seq<Segment>, output: seq<Segment>, t: Table)
    requires ReadBack(current, output, t)
    ensures |output| == |current|
  {
  }

  lemma NothingStored(t: Table)
    ensures forall d: Trail, previous, matrix, before, t', after ::
              Remapped(d, previous, [], matrix, t, before, t', after) ==> t' == t
  {
  }

  class SpeakerRemapper {
    var nextGlobalId: nat
    var windows: Table

    ghost predicate Valid() reads this { TableBelow(windows, nextGlobalId) }

    constructor ()
      ensures Valid() && nextGlobalId == 1 && windows == map[]
    {
      nextGlobalId, windows := 1, map[];
    }

    /** The state that an earlier remapper left. */
    constructor Load(table: Table, next: nat)
      requires TableBelow(table, next)
      ensures Valid() && nextGlobalId == next && windows == table
    {
      nextGlobalId, windows := next, table;
    }

    /** next_global_id moves past every label that occurs in the segments. */
    method Bump(s: seq<Segment>)
      requires Valid() && LabelsOk(s)
      modifies this`nextGlobalId
      ensures Valid() && NextAfter(s, old(nextGlobalId), nextGlobalId)
    {
      for i := 0 to |s|
        invariant Valid() && NextAfter(s[..i], old(nextGlobalId), nextGlobalId)
      {
        assert s[..i + 1][i] == s[i];
        if Labelled(s[i]) && LabelNumber(s[i].globalSpeaker.value) >= nextGlobalId {
          nextGlobalId := LabelNumber(s[i].globalSpeaker.value) + 1;
        }
      }
      assert s[..|s|] == s;
    }

    /** Decide the locals that have no entry yet. */
    method Decide(locals: seq<string>, best: Assignment.Mapping, matrix: Assignment.Matrix, existing: EntryMap)
      returns (mapping: EntryMap)
      requires Valid() && NoDuplicates(locals) && BestBelow(best, nextGlobalId)
      requires forall l :: l in locals ==> l !in existing && l in matrix
      modifies this`nextGlobalId
      ensures Valid() && Decision(mapping, existing, locals, best, matrix, old(nextGlobalId), nextGlobalId)
    {
      hide Decision, TableBelow, Label, LabelNumber, IsLabel;
      mapping := existing;
      NothingDecided(existing, best, matrix, nextGlobalId);
      for k := 0 to |locals|
        invariant TableBelow(windows, old(nextGlobalId))
        invariant nextGlobalId >= old(nextGlobalId)
        invariant Decision(mapping, existing, locals[..k], best, matrix, old(nextGlobalId), nextGlobalId)
      {
        var l := locals[k];
        assert locals[..k + 1] == locals[..k] + [l];
        var confidence := BestCell(l, best, matrix);
        ghost var next := nextGlobalId;
        var entry := Entry(if l in best then best[l] else "", confidence, matrix[l]);
        if confidence < 0.85 {
          LabelRoundTrip(nextGlobalId);
          entry := entry.(speaker := Label(nextGlobalId));
          nextGlobalId := nextGlobalId + 1;
        }
        DecisionOneMore(mapping, existing, locals[..k], l, entry, best, matrix, old(nextGlobalId), next, nextGlobalId);
        mapping := mapping[l := entry];
      }
      assert locals[..|locals|] == locals;
      TableStaysBelow(windows, old(nextGlobalId), nextGlobalId);
    }

    /** map_adjacent: the result and the table, or an error that leaves the table as it was. */
    method MapAdjacent(previous: seq<Segment>, current: seq<Segment>, pw: Option<WindowSpec>, cw: WindowSpec,
                       tm: TextModel)
      returns (r: Result<seq<Segment>, RemapError>, ghost d: Trail)
      requires Valid()
      modifies this
      ensures Valid() && nextGlobalId >= old(nextGlobalId)
      ensures r == Failure(InvalidSpeaker) <==> !LabelsOk(previous) || !LabelsOk(current)
      ensures r.Failure? ==> windows == old(windows)
      ensures r.Success? ==> ReadBack(current, r.value, windows)
      ensures LabelsOk(previous) && LabelsOk(current) && current != [] && AllKnown(old(windows), current) ==>
                r.Success? && windows == old(windows) && nextGlobalId == old(nextGlobalId)
      ensures LabelsOk(previous) && LabelsOk(current) && !(current != [] && AllKnown(old(windows), current)) ==>
                var matrix := MatrixOf(previous, current, pw, cw, tm);
                && (r.Failure? <==> TooMany(matrix, old(windows), current))
                && (r.Success? ==>
                    Remapped(d, previous, current, matrix, old(windows), old(nextGlobalId), windows, nextGlobalId))
    {
      hide Decision, Stored, Optimal, Existing, MatrixOf, TooMany, TableBelow;
      d := Trail(map[], map[], [], [], 0);
      if !LabelsOk(previous) || !LabelsOk(current) {
        return Failure(InvalidSpeaker), d;
      }
      if current != [] && AllKnown(windows, current) {
        r := Success(Output(current, windows));
        return;
      }
      Bump(previous);
      Bump(current);
      r, d := MapNew(previous, current, pw, cw, tm);
    }

    /** The part of map_adjacent after the labels were checked and counted. */
    method MapNew(previous: seq<Segment>, current: seq<Segment>, pw: Option<WindowSpec>, cw: WindowSpec, tm: TextModel)
      returns (r: Result<seq<Segment>, RemapError>, ghost d: Trail)
      requires Valid() && LabelsBelow(previous, nextGlobalId) && LabelsBelow(current, nextGlobalId)
      modifies this
      ensures Valid() && nextGlobalId >= old(nextGlobalId)
      ensures r.Failure? ==> r.error == AssignmentLimit && windows == old(windows)
      ensures r.Success? ==> ReadBack(current, r.value, windows)
      ensures var matrix := MatrixOf(previous, current, pw, cw, tm);
              && (r.Failure? <==> TooMany(matrix, old(windows), current))
              && (r.Success? ==>
                  Remapped(d, previous, current, matrix, old(windows), old(nextGlobalId), windows, nextGlobalId))
    {
      hide Decision, Stored, Existing, VoteMatrix, Pairs, Locals;
      d := Trail(map[], map[], [], [], 0);
      var ms := OverlapPairs(previous, current, pw, cw, false, tm);
      PairsMatch(previous, current, pw, cw, tm);
      var matrix := CountVotes(ms, previous, current);
      MatrixNonNegative(ms, previous, current);
      MatrixRows(ms, previous, current);
      PoolBelow(ms, previous, current, windows, nextGlobalId);
      var locals := SortedList(NewLocals(windows, current));
      var globals := SortedList(Pool(matrix, windows, current));
      if AssignmentCount(|locals|, |globals|) > MAX_ASSIGNMENT_CANDIDATES {
        return Failure(AssignmentLimit), d;
      }
      var best := Assignment.BestAssignment(locals, globals, matrix);
      ListedMembers(locals, NewLocals(windows, current));
      ListedMembers(globals, Pool(matrix, windows, current));
      d := DecideAll(current, matrix, locals, globals, best);
      r := Success(Output(current, windows));
    }

    /** Decide the new locals and store every segment's entry. */
    method DecideAll(current: seq<Segment>, matrix: Assignment.Matrix, locals: seq<string>, globals: seq<string>,
                     best: Assignment.Mapping) returns (ghost d: Trail)
      requires Valid() && NoDuplicates(locals) && BestBelow(best, nextGlobalId)
      requires forall l :: l in locals <==> l in NewLocals(windows, current)
      requires forall l :: l in Locals(current) ==> l in matrix
      modifies this
      ensures Valid() && nextGlobalId >= old(nextGlobalId)
      ensures d.locals == locals && d.globals == globals && d.best == best && d.next == old(nextGlobalId)
      ensures Decision(d.mapping, Existing(old(windows), current), locals, best, matrix, old(nextGlobalId),
                       nextGlobalId)
      ensures Locals(current) <= d.mapping.Keys && windows == Stored(old(windows), current, d.mapping)
      ensures AllKnown(windows, current)
    {
      ghost var table, before := windows, nextGlobalId;
      var existing := Existing(windows, current);
      var mapping := Decide(locals, best, matrix, existing);
      d := Trail(mapping, best, locals, globals, before);
      forall l | l in mapping
        ensures IsLabel(mapping[l].speaker) && LabelNumber(mapping[l].speaker) < nextGlobalId
      {
        MappingBelow(d, current, matrix, table, before, nextGlobalId, l);
      }
      StoreAll(current, mapping);
    }

    method StoreAll(current: seq<Segment>, mapping: EntryMap)
      requires Valid() && Locals(current) <= mapping.Keys
      requires forall l :: l in mapping ==>
                 IsLabel(mapping[l].speaker) && LabelNumber(mapping[l].speaker) < nextGlobalId
      modifies this`windows
      ensures Valid() && windows == Stored(old(windows), current, mapping) && AllKnown(windows, current)
    {
      ghost var table := windows;
      for k := 0 to |current|
        invariant Locals(current[..k]) <= mapping.Keys && windows == Stored(table, current[..k], mapping)
      {
        var s := current[k];
        assert s.localSpeaker in Locals(current);
        assert current[..k + 1][..k] == current[..k];
        windows := windows[s.windowId := Row(windows, s.windowId)[s.localSpeaker := mapping[s.localSpeaker]]];
      }
      assert current[..|current|] == current;
      StoredCells(table, current, mapping);
    }
  }
}

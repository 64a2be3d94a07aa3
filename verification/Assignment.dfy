/** Exhaustive speaker assignment: all injective assignments of one side to the other in
    itertools.permutations order, and the best of them. */
module Assignment {
  import opened Sorting
  import opened Sets

  /** matrix[local][global]: mean confidence; absent cells count as zero. */
  type Matrix = map<string, map<string, real>>

  type Mapping = map<string, string>

  function Cell(m: Matrix, local: string, global: string): real {
    if local in m && global in m[local] then m[local][global] else 0.0
  }

  ghost predicate NonNegative(m: Matrix) {
    forall l, g :: Cell(m, l, g) >= 0.0
  }

  /** Total confidence of an assignment, summed over the listed locals. */
  function Score(locals: seq<string>, a: Mapping, m: Matrix): real {
    if locals == [] then 0.0
    else (if locals[0] in a then Cell(m, locals[0], a[locals[0]]) else 0.0) + Score(locals[1..], a, m)
  }

  predicate Injective(a: Mapping) {
    forall l, k :: l in a && k in a && l != k ==> a[l] != a[k]
  }

  predicate Within(a: Mapping, locals: seq<string>, globals: seq<string>) {
    forall l :: l in a ==> l in locals && a[l] in globals
  }

  // ----- itertools.permutations -----

  function Drop<T>(pool: seq<T>, i: nat): seq<T>
    requires i < |pool|
  {
    pool[..i] + pool[i + 1..]
  }

  function Prepend<T>(x: T, ps: seq<seq<T>>): seq<seq<T>> {
    seq(|ps|, k requires 0 <= k < |ps| => [x] + ps[k])
  }

  function Permutations<T>(pool: seq<T>, r: nat): seq<seq<T>>
    decreases r, |pool| + 1
  {
    if r == 0 then [[]] else PermutationsFrom(pool, r, 0)
  }

  function PermutationsFrom<T>(pool: seq<T>, r: nat, i: nat): seq<seq<T>>
    requires r > 0 && i <= |pool|
    decreases r, |pool| - i
  {
    if i == |pool| then []
    else Prepend(pool[i], Permutations(Drop(pool, i), r - 1)) + PermutationsFrom(pool, r, i + 1)
  }

  ghost predicate Arrangement<T(!new)>(p: seq<T>, pool: seq<T>, r: nat) {
    |p| == r && NoDuplicates(p) && forall x :: x in p ==> x in pool
  }

  lemma DropMembers<T(!new)>(pool: seq<T>, i: nat)
    requires i < |pool| && NoDuplicates(pool)
    ensures NoDuplicates(Drop(pool, i))
    ensures forall x :: x in Drop(pool, i) <==> x in pool && x != pool[i]
  {
    var d := Drop(pool, i);
    forall k | 0 <= k < |d|
      ensures d[k] == pool[if k < i then k else k + 1]
    {}
    forall x | x in pool && x != pool[i]
      ensures x in d
    {
      var k :| 0 <= k < |pool| && pool[k] == x;
      assert d[if k < i then k else k - 1] == x;
    }
  }

  /** The enumeration contains exactly the arrangements: injective choices, no others. */
  lemma {:induction false} PermutationsSound<T(!new)>(pool: seq<T>, r: nat, p: seq<T>)
    requires NoDuplicates(pool)
    ensures p in Permutations(pool, r) <==> Arrangement(p, pool, r)
    decreases r, |pool| + 1
  {
    if r > 0 {
      PermutationsFromSound(pool, r, 0, p);
    }
  }

  lemma HeadTail<T(!new)>(p: seq<T>, pool: seq<T>, r: nat, i: nat)
    requires NoDuplicates(pool) && r > 0 && i < |pool| && p != [] && p[0] == pool[i]
    ensures Arrangement(p, pool, r) <==> Arrangement(p[1..], Drop(pool, i), r - 1)
  {
    DropMembers(pool, i);
    assert p == [p[0]] + p[1..];
    if Arrangement(p[1..], Drop(pool, i), r - 1) {
      forall a, b | 0 <= a < b < |p|
        ensures p[a] != p[b]
      {
        assert p[b] in p[1..];
        if a > 0 {
          assert p[a] == p[1..][a - 1] && p[b] == p[1..][b - 1];
        }
      }
    }
    if Arrangement(p, pool, r) {
      forall x | x in p[1..]
        ensures x in Drop(pool, i)
      {
        var k :| 0 <= k < |p| - 1 && p[1..][k] == x;
        assert p[k + 1] == x && p[0] != p[k + 1];
      }
    }
  }

  lemma {:induction false} PermutationsFromSound<T(!new)>(pool: seq<T>, r: nat, i: nat, p: seq<T>)
    requires NoDuplicates(pool) && r > 0 && i <= |pool|
    ensures p in PermutationsFrom(pool, r, i) <==> Arrangement(p, pool, r) && p[0] in pool[i..]
    decreases r, |pool| - i
  {
    if i < |pool| {
      PermutationsFromSound(pool, r, i + 1, p);
      var rest := Permutations(Drop(pool, i), r - 1);
      DropMembers(pool, i);
      assert pool[i..] == [pool[i]] + pool[i + 1..];
      if p != [] {
        PermutationsSound(Drop(pool, i), r - 1, p[1..]);
        assert p == [p[0]] + p[1..];
      }
      var front := Prepend(pool[i], rest);
      assert p in front <==> p != [] && p[0] == pool[i] && p[1..] in rest by {
        if p in front {
          var k :| 0 <= k < |front| && front[k] == p;
          assert p[1..] == rest[k];
        }
        if p != [] && p[0] == pool[i] && p[1..] in rest {
          var k :| 0 <= k < |rest| && rest[k] == p[1..];
          assert front[k] == p;
        }
      }
      if p != [] && p[0] == pool[i] {
        HeadTail(p, pool, r, i);
      }
    }
  }

  /** math.perm: the number of arrangements, checked against the limit before enumerating. */
  function Perm(n: nat, r: nat): nat {
    if r == 0 then 1 else if n == 0 then 0 else n * Perm(n - 1, r - 1)
  }

  lemma {:induction false} PermutationsCount<T>(pool: seq<T>, r: nat)
    ensures |Permutations(pool, r)| == Perm(|pool|, r)
    decreases r, |pool| + 1
  {
    if r > 0 {
      PermutationsFromCount(pool, r, 0);
    }
  }

  lemma {:induction false} PermutationsFromCount<T>(pool: seq<T>, r: nat, i: nat)
    requires r > 0 && i <= |pool|
    ensures |PermutationsFrom(pool, r, i)| == (|pool| - i) * (if |pool| == 0 then 0 else Perm(|pool| - 1, r - 1))
    decreases r, |pool| - i
  {
    if i < |pool| {
      PermutationsCount(Drop(pool, i), r - 1);
      PermutationsFromCount(pool, r, i + 1);
      var each := Perm(|pool| - 1, r - 1);
      assert (|pool| - i) * each == each + (|pool| - (i + 1)) * each;
    }
  }

  // ----- assignments -----

  function Zip(keys: seq<string>, values: seq<string>): (a: Mapping)
    requires |keys| == |values| && NoDuplicates(keys)
    ensures forall l :: l in a <==> l in keys
    ensures forall i :: 0 <= i < |keys| ==> a[keys[i]] == values[i]
  {
    if keys == [] then map[]
    else
      var a := Zip(keys[1..], values[1..]);
      assert keys[0] !in keys[1..];
      var b := a[keys[0] := values[0]];
      assert forall i :: 0 < i < |keys| ==> keys[i] == keys[1..][i - 1] && b[keys[i]] == a[keys[i]];
      b
  }

  /** The assignment that an arrangement of the larger side stands for. */
  function AssignmentOf(locals: seq<string>, globals: seq<string>, p: seq<string>): Mapping
    requires NoDuplicates(locals) && NoDuplicates(p)
    requires |p| == if |locals| <= |globals| then |locals| else |globals|
  {
    if |locals| <= |globals| then Zip(locals, p) else Zip(p, globals)
  }

  function Arrangements(locals: seq<string>, globals: seq<string>): seq<seq<string>> {
    if |locals| <= |globals| then Permutations(globals, |locals|) else Permutations(locals, |globals|)
  }

  lemma ArrangementsSound(locals: seq<string>, globals: seq<string>, p: seq<string>)
    requires NoDuplicates(locals) && NoDuplicates(globals)
    ensures p in Arrangements(locals, globals) <==>
              if |locals| <= |globals| then Arrangement(p, globals, |locals|) else Arrangement(p, locals, |globals|)
  {
    if |locals| <= |globals| {
      PermutationsSound(globals, |locals|, p);
    } else {
      PermutationsSound(locals, |globals|, p);
    }
  }

  lemma ArrangementParts(p: seq<string>, pool: seq<string>, r: nat)
    ensures Arrangement(p, pool, r) ==> |p| == r && NoDuplicates(p) && forall i :: 0 <= i < |p| ==> p[i] in pool
  {
  }

  lemma ZipSound(keys: seq<string>, values: seq<string>, locals: seq<string>, globals: seq<string>)
    requires |keys| == |values| && NoDuplicates(keys) && NoDuplicates(values)
    requires forall i :: 0 <= i < |keys| ==> keys[i] in locals && values[i] in globals
    ensures Injective(Zip(keys, values)) && Within(Zip(keys, values), locals, globals)
  {
    hide Zip;
    var a := Zip(keys, values);
    forall l | l in a
      ensures l in locals && a[l] in globals
    {
      var i :| 0 <= i < |keys| && keys[i] == l;
      assert a[l] == values[i];
    }
    forall l, k | l in a && k in a && l != k
      ensures a[l] != a[k]
    {
      var i :| 0 <= i < |keys| && keys[i] == l;
      var j :| 0 <= j < |keys| && keys[j] == k;
    }
  }

  lemma AssignmentOfSound(locals: seq<string>, globals: seq<string>, p: seq<string>)
    requires NoDuplicates(locals) && NoDuplicates(globals) && p in Arrangements(locals, globals)
    ensures NoDuplicates(p) && |p| == if |locals| <= |globals| then |locals| else |globals|
    ensures var a := AssignmentOf(locals, globals, p); Injective(a) && Within(a, locals, globals)
  {
    hide Arrangements, Permutations, Arrangement, Zip;
    ArrangementsSound(locals, globals, p);
    if |locals| <= |globals| {
      ArrangementParts(p, globals, |locals|);
      ZipSound(locals, p, locals, globals);
    } else {
      ArrangementParts(p, locals, |globals|);
      ZipSound(p, globals, locals, globals);
    }
  }

  // ----- every partial assignment extends to an enumerated one -----

  lemma {:induction false} ImageSize(a: Mapping)
    ensures |a.Values| <= |a| && (Injective(a) ==> |a.Values| == |a|)
  {
    if a != map[] {
      var l :| l in a;
      var b := a - {l};
      ImageSize(b);
      assert a == b[l := a[l]];
      assert a.Values == b.Values + {a[l]};
    }
  }

  function Elements(s: seq<string>): set<string> { set x | x in s }

  lemma {:induction false} ElementsSize(s: seq<string>)
    requires NoDuplicates(s)
    ensures |Elements(s)| == |s|
  {
    if s != [] {
      ElementsSize(s[1..]);
      assert Elements(s) == Elements(s[1..]) + {s[0]};
      assert s[0] !in s[1..];
    }
  }

  lemma Missing(all: set<string>, some: set<string>) returns (x: string)
    requires some <= all && |some| < |all|
    ensures x in all && x !in some
  {
    assert all * some == some;
    assert |all - some| + |all * some| == |all|;
    x :| x in all - some;
  }

  lemma {:induction false} ScoreGrows(locals: seq<string>, a: Mapping, l: string, g: string, m: Matrix)
    requires l !in a && NonNegative(m)
    ensures Score(locals, a[l := g], m) >= Score(locals, a, m)
  {
    if locals != [] {
      ScoreGrows(locals[1..], a, l, g, m);
      assert Cell(m, l, g) >= 0.0;
    }
  }

  lemma GrowOnce(locals: seq<string>, globals: seq<string>, a: Mapping, l: string, g: string, m: Matrix)
    requires Injective(a) && Within(a, locals, globals) && NonNegative(m)
    requires l in locals && l !in a && g in globals && g !in a.Values
    ensures var b := a[l := g]; Injective(b) && Within(b, locals, globals) && Score(locals, b, m) >= Score(locals, a, m)
  {
    ScoreGrows(locals, a, l, g, m);
    var b := a[l := g];
    forall x, y | x in b && y in b && x != y
      ensures b[x] != b[y]
    {
      if x in a {
        assert a[x] in a.Values;
      }
      if y in a {
        assert a[y] in a.Values;
      }
    }
  }

  /** Extend `a` until one side is exhausted; the score does not fall. */
  lemma {:induction false} ExtendFully(locals: seq<string>, globals: seq<string>, a: Mapping, m: Matrix)
    returns (b: Mapping)
    requires NoDuplicates(locals) && NoDuplicates(globals) && NonNegative(m)
    requires Injective(a) && Within(a, locals, globals)
    ensures Injective(b) && Within(b, locals, globals) && Score(locals, b, m) >= Score(locals, a, m)
    ensures if |locals| <= |globals| then b.Keys == Elements(locals) else b.Values == Elements(globals)
    decreases |locals| - |a|
  {
    ImageSize(a);
    ElementsSize(locals);
    ElementsSize(globals);
    assert a.Keys <= Elements(locals) && a.Values <= Elements(globals);
    SubsetSize(a.Keys, Elements(locals));
    SubsetSize(a.Values, Elements(globals));
    if |a| < |locals| && |a| < |globals| {
      var l := Missing(Elements(locals), a.Keys);
      var g := Missing(Elements(globals), a.Values);
      GrowOnce(locals, globals, a, l, g, m);
      b := ExtendFully(locals, globals, a[l := g], m);
    } else {
      b := a;
      if |locals| <= |globals| {
        SubsetEqual(a.Keys, Elements(locals));
      } else {
        SubsetEqual(a.Values, Elements(globals));
      }
    }
  }

  lemma {:induction false} ScoreSame(locals: seq<string>, a: Mapping, b: Mapping, m: Matrix)
    requires forall l :: l in locals ==> (l in a <==> l in b) && (l in a ==> a[l] == b[l])
    ensures Score(locals, a, m) == Score(locals, b, m)
  {
    if locals != [] {
      ScoreSame(locals[1..], a, b, m);
    }
  }

  /** A full assignment is one of the enumerated ones. */
  lemma FullIsEnumerated(locals: seq<string>, globals: seq<string>, b: Mapping, m: Matrix) returns (p: seq<string>)
    requires NoDuplicates(locals) && NoDuplicates(globals) && Injective(b) && Within(b, locals, globals)
    requires if |locals| <= |globals| then b.Keys == Elements(locals) else b.Values == Elements(globals)
    ensures p in Arrangements(locals, globals) && NoDuplicates(p)
    ensures |p| == if |locals| <= |globals| then |locals| else |globals|
    ensures Score(locals, AssignmentOf(locals, globals, p), m) == Score(locals, b, m)
  {
    if |locals| <= |globals| {
      forall i | 0 <= i < |locals|
        ensures locals[i] in b
      {
        assert locals[i] in Elements(locals);
      }
      p := seq(|locals|, i requires 0 <= i < |locals| => b[locals[i]]);
      ArrangementsSound(locals, globals, p);
      ScoreSame(locals, AssignmentOf(locals, globals, p), b, m);
    } else {
      p := Preimages(globals, b);
      forall x | x in p
        ensures x in locals
      {
        var i :| 0 <= i < |p| && p[i] == x;
      }
      ArrangementsSound(locals, globals, p);
      var a := AssignmentOf(locals, globals, p);
      forall l | l in b
        ensures l in a && a[l] == b[l]
      {
        assert b[l] in b.Values;
        var i :| 0 <= i < |globals| && globals[i] == b[l];
        assert p[i] == l;
      }
      forall l | l in a
        ensures l in b
      {
        var i :| 0 <= i < |p| && p[i] == l;
      }
      ScoreSame(locals, a, b, m);
    }
  }

  /** The local that takes each global, in the order of the globals. */
  lemma Preimages(globals: seq<string>, b: Mapping) returns (p: seq<string>)
    requires Injective(b) && NoDuplicates(globals) && b.Values == Elements(globals)
    ensures |p| == |globals| && NoDuplicates(p)
    ensures forall i :: 0 <= i < |p| ==> p[i] in b && b[p[i]] == globals[i]
  {
    p := [];
    while |p| < |globals|
      invariant |p| <= |globals|
      invariant forall i :: 0 <= i < |p| ==> p[i] in b && b[p[i]] == globals[i]
    {
      assert globals[|p|] in Elements(globals);
      assert globals[|p|] in b.Values;
      var l :| l in b && b[l] == globals[|p|];
      p := p + [l];
    }
  }

  lemma {:induction false} ScoreNonNegative(locals: seq<string>, a: Mapping, m: Matrix)
    requires NonNegative(m)
    ensures Score(locals, a, m) >= 0.0
  {
    if locals != [] {
      ScoreNonNegative(locals[1..], a, m);
      if locals[0] in a {
        assert Cell(m, locals[0], a[locals[0]]) >= 0.0;
      }
    }
  }

  predicate Proper(p: seq<string>, locals: seq<string>, globals: seq<string>) {
    NoDuplicates(locals) && NoDuplicates(p) && |p| == if |locals| <= |globals| then |locals| else |globals|
  }

  predicate Worse(p: seq<string>, locals: seq<string>, globals: seq<string>, m: Matrix, bound: real) {
    Proper(p, locals, globals) && Score(locals, AssignmentOf(locals, globals, p), m) < bound
  }

  /** `best` is enumerated at `k`, and everything enumerated before it scores less. */
  ghost predicate FirstAt(best: Mapping, k: nat, locals: seq<string>, globals: seq<string>, m: Matrix) {
    var arrangements := Arrangements(locals, globals);
    && k < |arrangements| && Proper(arrangements[k], locals, globals)
    && best == AssignmentOf(locals, globals, arrangements[k])
    && forall j :: 0 <= j < k ==> Worse(arrangements[j], locals, globals, m, Score(locals, best, m))
  }

  ghost predicate FirstBest(best: Mapping, locals: seq<string>, globals: seq<string>, m: Matrix) {
    exists k: nat :: FirstAt(best, k, locals, globals, m)
  }

  /** Total confidence that no partial one-to-one assignment exceeds. */
  ghost predicate Highest(best: Mapping, locals: seq<string>, globals: seq<string>, m: Matrix) {
    && Injective(best) && Within(best, locals, globals)
    && forall a :: Injective(a) && Within(a, locals, globals) ==> Score(locals, a, m) <= Score(locals, best, m)
  }

  lemma EarlierIsWorse(a: Mapping, i: nat, b: Mapping, j: nat, locals: seq<string>, globals: seq<string>, m: Matrix)
    requires FirstAt(a, i, locals, globals, m) && FirstAt(b, j, locals, globals, m) && i < j
    ensures Score(locals, a, m) < Score(locals, b, m)
  {
    hide Score, AssignmentOf, Arrangements;
    assert Worse(Arrangements(locals, globals)[i], locals, globals, m, Score(locals, b, m));
  }

  /** Ties are decided: there is one first best assignment. */
  lemma FirstBestUnique(a: Mapping, b: Mapping, locals: seq<string>, globals: seq<string>, m: Matrix)
    requires FirstBest(a, locals, globals, m) && Highest(a, locals, globals, m)
    requires FirstBest(b, locals, globals, m) && Highest(b, locals, globals, m)
    ensures a == b
  {
    hide Score, AssignmentOf, Arrangements;
    var i: nat :| FirstAt(a, i, locals, globals, m);
    var j: nat :| FirstAt(b, j, locals, globals, m);
    if i < j {
      EarlierIsWorse(a, i, b, j, locals, globals, m);
      assert false;
    } else if j < i {
      EarlierIsWorse(b, j, a, i, locals, globals, m);
      assert false;
    }
  }

  /** The loop over all assignments: the result is an injective assignment whose total
      confidence no partial one-to-one assignment exceeds, the first such one enumerated. */
  method BestAssignment(locals: seq<string>, globals: seq<string>, m: Matrix) returns (best: Mapping)
    requires NoDuplicates(locals) && NoDuplicates(globals) && NonNegative(m)
    ensures Highest(best, locals, globals, m) && FirstBest(best, locals, globals, m)
  {
    hide Arrangements, Score, AssignmentOf;
    var arrangements := Arrangements(locals, globals);
    best := map[];
    var bestScore := -1.0;
    ghost var chosen: nat := 0;
    for k := 0 to |arrangements|
      invariant Injective(best) && Within(best, locals, globals)
      invariant if k == 0 then bestScore == -1.0
                else bestScore == Score(locals, best, m) && FirstAt(best, chosen, locals, globals, m)
      invariant forall p :: p in arrangements[..k] ==> Bounded(p, locals, globals, m, bestScore)
    {
      var p := arrangements[k];
      assert p in arrangements;
      AssignmentOfSound(locals, globals, p);
      var assignment := AssignmentOf(locals, globals, p);
      var score := Score(locals, assignment, m);
      ScoreNonNegative(locals, assignment, m);
      if score > bestScore {
        forall j | 0 <= j < k
          ensures Worse(arrangements[j], locals, globals, m, score)
        {
          assert arrangements[..k][j] in arrangements[..k];
          assert Bounded(arrangements[j], locals, globals, m, bestScore);
        }
        best, bestScore, chosen := assignment, score, k;
      }
      assert arrangements[..k + 1] == arrangements[..k] + [p];
    }
    assert arrangements[..|arrangements|] == arrangements;
    EnumerationDominates(locals, globals, m, bestScore);
    assert FirstAt(best, chosen, locals, globals, m);
  }

  predicate Bounded(p: seq<string>, locals: seq<string>, globals: seq<string>, m: Matrix, bound: real)
    requires NoDuplicates(locals)
  {
    && NoDuplicates(p) && |p| == (if |locals| <= |globals| then |locals| else |globals|)
    && Score(locals, AssignmentOf(locals, globals, p), m) <= bound
  }

  /** A bound on all enumerated assignments bounds every partial one-to-one assignment. */
  lemma EnumerationDominates(locals: seq<string>, globals: seq<string>, m: Matrix, bound: real)
    requires NoDuplicates(locals) && NoDuplicates(globals) && NonNegative(m)
    requires forall p :: p in Arrangements(locals, globals) ==> Bounded(p, locals, globals, m, bound)
    ensures bound >= 0.0
    ensures forall a :: Injective(a) && Within(a, locals, globals) ==> Score(locals, a, m) <= bound
  {
    forall a | Injective(a) && Within(a, locals, globals)
      ensures Score(locals, a, m) <= bound
    {
      var b := ExtendFully(locals, globals, a, m);
      var p := FullIsEnumerated(locals, globals, b, m);
      assert Bounded(p, locals, globals, m, bound);
    }
    EmptyScore(locals, m);
    assert Injective(map[]) && Within(map[], locals, globals);
  }

  lemma {:induction false} EmptyScore(locals: seq<string>, m: Matrix)
    ensures Score(locals, map[], m) == 0.0
  {
    if locals != [] {
      EmptyScore(locals[1..], m);
    }
  }
}

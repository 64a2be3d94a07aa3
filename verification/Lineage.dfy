/** The fragment history of webapp/src/stores/interrogation.ts: lineage links merge groups
    of fragments, and a fragment's history is its group. */
module Lineage {
  import opened Wrappers
  import opened Sorting

  type Id = string

  datatype Link = Link(parent: Id, child: Id)

  datatype Fragment = Fragment(id: Id, startedAtMs: int, ordinal: int, lineage: seq<Link>)

  // ----- connected through links -----

  predicate Linked(links: seq<Link>, a: Id, b: Id) { Link(a, b) in links || Link(b, a) in links }

  ghost predicate Path(links: seq<Link>, path: seq<Id>) {
    path != [] && forall i :: 0 <= i < |path| - 1 ==> Linked(links, path[i], path[i + 1])
  }

  ghost predicate PathFrom(links: seq<Link>, a: Id, b: Id, path: seq<Id>) {
    Path(links, path) && path[0] == a && path[|path| - 1] == b
  }

  /** A chain of links, taken in either direction, leads from `a` to `b`. */
  ghost predicate Connected(links: seq<Link>, a: Id, b: Id) { exists path :: PathFrom(links, a, b, path) }

  lemma ConnectedSelf(links: seq<Link>, a: Id)
    ensures Connected(links, a, a)
  {
    assert PathFrom(links, a, a, [a]);
  }

  lemma ConnectedLink(links: seq<Link>, a: Id, b: Id)
    requires Linked(links, a, b)
    ensures Connected(links, a, b)
  {
    assert PathFrom(links, a, b, [a, b]);
  }

  lemma ConnectedTransitive(links: seq<Link>, a: Id, b: Id, c: Id)
    requires Connected(links, a, b) && Connected(links, b, c)
    ensures Connected(links, a, c)
  {
    var p :| PathFrom(links, a, b, p);
    var q :| PathFrom(links, b, c, q);
    var r := p + q[1..];
    forall i | 0 <= i < |r| - 1
      ensures Linked(links, r[i], r[i + 1])
    {
      if i < |p| - 1 {
        assert r[i] == p[i] && r[i + 1] == p[i + 1];
      } else {
        assert r[i] == q[i - |p| + 1] && r[i + 1] == q[i - |p| + 2];
      }
    }
    assert PathFrom(links, a, c, r);
  }

  lemma ConnectedSymmetric(links: seq<Link>, a: Id, b: Id)
    requires Connected(links, a, b)
    ensures Connected(links, b, a)
  {
    var p :| PathFrom(links, a, b, p);
    var r := seq(|p|, i requires 0 <= i < |p| => p[|p| - 1 - i]);
    forall i | 0 <= i < |r| - 1
      ensures Linked(links, r[i], r[i + 1])
    {
      assert Linked(links, p[|p| - 2 - i], p[|p| - 2 - i + 1]);
    }
    assert PathFrom(links, b, a, r);
  }

  lemma ConnectedGrows(links: seq<Link>, link: Link, a: Id, b: Id)
    requires Connected(links, a, b)
    ensures Connected(links + [link], a, b)
  {
    var p :| PathFrom(links, a, b, p);
    assert forall i :: 0 <= i < |p| - 1 ==> Linked(links, p[i], p[i + 1]) ==> Linked(links + [link], p[i], p[i + 1]);
    assert PathFrom(links + [link], a, b, p);
  }

  /** What a new link connects: everything on one side with everything on the other. */
  ghost predicate Joined(links: seq<Link>, link: Link, a: Id, b: Id) {
    || Connected(links, a, b)
    || (Connected(links, a, link.parent) && Connected(links, link.child, b))
    || (Connected(links, a, link.child) && Connected(links, link.parent, b))
  }

  lemma JoinedStep(links: seq<Link>, link: Link, a: Id, x: Id, b: Id)
    requires Linked(links + [link], a, x) && Joined(links, link, x, b)
    ensures Joined(links, link, a, b)
  {
    if Linked(links, a, x) {
      ConnectedLink(links, a, x);
      if Connected(links, x, b) {
        ConnectedTransitive(links, a, x, b);
      } else if Connected(links, x, link.parent) && Connected(links, link.child, b) {
        ConnectedTransitive(links, a, x, link.parent);
      } else {
        ConnectedTransitive(links, a, x, link.child);
      }
    } else {
      assert link == Link(a, x) || link == Link(x, a);
      ConnectedSelf(links, a);
    }
  }

  lemma {:induction false} PathJoined(links: seq<Link>, link: Link, path: seq<Id>)
    requires Path(links + [link], path)
    ensures Joined(links, link, path[0], path[|path| - 1])
    decreases |path|
  {
    if |path| == 1 {
      ConnectedSelf(links, path[0]);
    } else {
      var rest := path[1..];
      forall i | 0 <= i < |rest| - 1
        ensures Linked(links + [link], rest[i], rest[i + 1])
      {
        assert Linked(links + [link], path[i + 1], path[i + 1 + 1]);
      }
      PathJoined(links, link, rest);
      JoinedStep(links, link, path[0], path[1], path[|path| - 1]);
    }
  }

  /** One more link: connected are exactly the fragments that were, and those on its two sides. */
  lemma ConnectedOneMore(links: seq<Link>, link: Link, a: Id, b: Id)
    ensures Connected(links + [link], a, b) <==> Joined(links, link, a, b)
  {
    var more := links + [link];
    if Connected(more, a, b) {
      var path :| PathFrom(more, a, b, path);
      PathJoined(links, link, path);
    }
    if Joined(links, link, a, b) {
      assert more[|links|] == link;
      ConnectedLink(more, link.parent, link.child);
      ConnectedLink(more, link.child, link.parent);
      if Connected(links, a, b) {
        ConnectedGrows(links, link, a, b);
      } else if Connected(links, a, link.parent) && Connected(links, link.child, b) {
        ConnectedGrows(links, link, a, link.parent);
        ConnectedGrows(links, link, link.child, b);
        ConnectedTransitive(more, a, link.parent, link.child);
        ConnectedTransitive(more, a, link.child, b);
      } else {
        ConnectedGrows(links, link, a, link.child);
        ConnectedGrows(links, link, link.parent, b);
        ConnectedTransitive(more, a, link.child, link.parent);
        ConnectedTransitive(more, a, link.parent, b);
      }
    }
  }

  // ----- the two maps -----

  /** The group map and the fragment-to-root map are inverse, and a root is in its own group. */
  ghost predicate Inverse(groups: map<Id, seq<Id>>, groupOf: map<Id, Id>) {
    && (forall r :: r in groups ==> NoDuplicates(groups[r]) && r in groups[r])
    && (forall r, id :: r in groups && id in groups[r] ==> id in groupOf && groupOf[id] == r)
    && (forall id :: id in groupOf ==> groupOf[id] in groups && id in groups[groupOf[id]])
  }

  ghost predicate Same(groupOf: map<Id, Id>, a: Id, b: Id) {
    a == b || (a in groupOf && b in groupOf && groupOf[a] == groupOf[b])
  }

  function RootOf(groupOf: map<Id, Id>, id: Id): Id { if id in groupOf then groupOf[id] else id }

  function GroupOrNone(groups: map<Id, seq<Id>>, root: Id): seq<Id> { if root in groups then groups[root] else [] }

  lemma GroupMembers(groups: map<Id, seq<Id>>, groupOf: map<Id, Id>, id: Id, x: Id)
    requires Inverse(groups, groupOf)
    ensures x == id || x in GroupOrNone(groups, RootOf(groupOf, id)) <==> Same(groupOf, x, id)
  {
  }

  /** The maps after a link: one group with the given members replaces both groups. */
  ghost predicate Merged(groups: map<Id, seq<Id>>, groupOf: map<Id, Id>, members: seq<Id>, parentRoot: Id,
                         childRoot: Id,
                         groups': map<Id, seq<Id>>, groupOf': map<Id, Id>) {
    && groups' == (if childRoot != parentRoot then groups - {childRoot} else groups)[parentRoot := members]
    && (forall id :: id in groupOf' <==> id in groupOf || id in members)
    && (forall id :: id in members ==> groupOf'[id] == parentRoot)
    && (forall id :: id in groupOf && id !in members ==> groupOf'[id] == groupOf[id])
  }

  lemma OtherGroup(groups: map<Id, seq<Id>>, groupOf: map<Id, Id>, p: Id, r: Id, id: Id)
    requires Inverse(groups, groupOf) && r in groups && id in groups[r] && r != RootOf(groupOf, p)
    ensures id in groupOf && groupOf[id] == r && !Same(groupOf, id, p)
  {
  }

  lemma SameRoot(groups: map<Id, seq<Id>>, groupOf: map<Id, Id>, p: Id, id: Id)
    requires Inverse(groups, groupOf) && id in groupOf && groupOf[id] == RootOf(groupOf, p)
    ensures Same(groupOf, id, p)
  {
  }

  lemma GroupOfRoot(groups: map<Id, seq<Id>>, groupOf: map<Id, Id>, id: Id)
    requires Inverse(groups, groupOf) && id in groupOf
    ensures groupOf[id] in groups && id in groups[groupOf[id]]
  {
  }

  lemma RootIsSame(groups: map<Id, seq<Id>>, groupOf: map<Id, Id>, p: Id)
    requires Inverse(groups, groupOf)
    ensures Same(groupOf, RootOf(groupOf, p), p)
  {
  }

  lemma OwnGroup(groups: map<Id, seq<Id>>, groupOf: map<Id, Id>, r: Id)
    requires Inverse(groups, groupOf) && r in groups
    ensures NoDuplicates(groups[r]) && r in groups[r]
  {
  }

  lemma MergedInverse(groups: map<Id, seq<Id>>, groupOf: map<Id, Id>, members: seq<Id>, p: Id, c: Id,
                      groups': map<Id, seq<Id>>, groupOf': map<Id, Id>)
    requires Inverse(groups, groupOf) && NoDuplicates(members)
    requires forall x :: x in members <==> Same(groupOf, x, p) || Same(groupOf, x, c)
    requires Merged(groups, groupOf, members, RootOf(groupOf, p), RootOf(groupOf, c), groups', groupOf')
    ensures Inverse(groups', groupOf')
  {
    hide Same, NoDuplicates, RootOf;
    var root := RootOf(groupOf, p);
    RootIsSame(groups, groupOf, p);
    forall r | r in groups'
      ensures NoDuplicates(groups'[r]) && r in groups'[r]
    {
      if r != root {
        OwnGroup(groups, groupOf, r);
      }
    }
    forall r, id | r in groups' && id in groups'[r]
      ensures id in groupOf' && groupOf'[id] == r
    {
      if r != root {
        OtherGroup(groups, groupOf, p, r, id);
        OtherGroup(groups, groupOf, c, r, id);
      }
    }
    forall id | id in groupOf'
      ensures groupOf'[id] in groups' && id in groups'[groupOf'[id]]
    {
      if id !in members {
        GroupOfRoot(groups, groupOf, id);
        if groupOf[id] == root {
          SameRoot(groups, groupOf, p, id);
        }
        if groupOf[id] == RootOf(groupOf, c) {
          SameRoot(groups, groupOf, c, id);
        }
      }
    }
  }

  lemma MergedSame(groups: map<Id, seq<Id>>, groupOf: map<Id, Id>, members: seq<Id>, p: Id, c: Id,
                   groups': map<Id, seq<Id>>, groupOf': map<Id, Id>, a: Id, b: Id)
    requires Inverse(groups, groupOf)
    requires forall x :: x in members <==> Same(groupOf, x, p) || Same(groupOf, x, c)
    requires Merged(groups, groupOf, members, RootOf(groupOf, p), RootOf(groupOf, c), groups', groupOf')
    ensures Same(groupOf', a, b) <==> Same(groupOf, a, b) || (a in members && b in members)
  {
    var root := RootOf(groupOf, p);
    assert forall x :: x in groupOf && groupOf[x] == root ==> Same(groupOf, x, p);
  }

  /** Two fragments share a group exactly when links connect them. */
  ghost predicate Tracks(groupOf: map<Id, Id>, links: seq<Link>) {
    forall a, b :: Same(groupOf, a, b) <==> Connected(links, a, b)
  }

  lemma MergedTracks(groups: map<Id, seq<Id>>, groupOf: map<Id, Id>, links: seq<Link>, members: seq<Id>, link: Link,
                     groups': map<Id, seq<Id>>, groupOf': map<Id, Id>)
    requires Inverse(groups, groupOf) && Tracks(groupOf, links)
    requires forall x :: x in members <==> Same(groupOf, x, link.parent) || Same(groupOf, x, link.child)
    requires Merged(groups, groupOf, members, RootOf(groupOf, link.parent), RootOf(groupOf, link.child), groups',
                    groupOf')
    ensures Tracks(groupOf', links + [link])
  {
    forall a, b
      ensures Same(groupOf', a, b) <==> Connected(links + [link], a, b)
    {
      ConnectedOneMore(links, link, a, b);
      MergedSame(groups, groupOf, members, link.parent, link.child, groups', groupOf', a, b);
      assert Same(groupOf, b, link.parent) <==> Connected(links, link.parent, b);
      assert Same(groupOf, b, link.child) <==> Connected(links, link.child, b);
    }
  }

  lemma NotLinked(a: Id, b: Id)
    ensures !Linked([], a, b)
  {
  }

  lemma NothingTracks()
    ensures Tracks(map[], [])
  {
    forall a, b
      ensures Same(map[], a, b) <==> Connected([], a, b)
    {
      if Connected([], a, b) {
        var path :| PathFrom([], a, b, path);
        if |path| > 1 {
          NotLinked(path[0], path[0 + 1]);
        }
      } else if a == b {
        ConnectedSelf([], a);
      }
    }
  }

  // ----- the store -----

  /** Fragments by time, then ordinal, then identifier; `idLe` is the order of the locale. */
  predicate HistoryLe(idLe: (Id, Id) -> bool, left: Fragment, right: Fragment) {
    || left.startedAtMs < right.startedAtMs
    || (left.startedAtMs == right.startedAtMs
        && (left.ordinal < right.ordinal || (left.ordinal == right.ordinal && idLe(left.id, right.id))))
  }

  function HistoryOrder(idLe: (Id, Id) -> bool): (Fragment, Fragment) -> bool {
    (left, right) => HistoryLe(idLe, left, right)
  }

  lemma HistoryOrderIsTotal(idLe: (Id, Id) -> bool)
    requires TotalOrder(idLe)
    ensures TotalOrder(HistoryOrder(idLe))
  {
    var le := HistoryOrder(idLe);
    forall x, y
      ensures le(x, y) || le(y, x)
    {
      assert idLe(x.id, y.id) || idLe(y.id, x.id);
    }
    forall x, y, z | le(x, y) && le(y, z)
      ensures le(x, z)
    {
      assert idLe(x.id, y.id) && idLe(y.id, z.id) ==> idLe(x.id, z.id);
    }
  }

  /** The links that a list of fragments reports, without the ones that lack an end. */
  function ReportedLinks(fragments: seq<Fragment>): seq<Link> {
    if fragments == [] then []
      else ReportedLinks(fragments[..|fragments| - 1]) + Usable(fragments[|fragments| - 1].lineage)
  }

  function Usable(links: seq<Link>): seq<Link> {
    if links == [] then []
    else
      var last := links[|links| - 1];
      Usable(links[..|links| - 1]) + if last.parent != "" && last.child != "" then [last] else []
  }

  function Remembered(fragments: seq<Fragment>): map<Id, Fragment> {
    if fragments == [] then map[]
      else Remembered(fragments[..|fragments| - 1])[fragments[|fragments| - 1].id := fragments[|fragments| - 1]]
  }

  lemma {:induction false} UsableMembers(links: seq<Link>, link: Link)
    ensures link in Usable(links) <==> link in links && link.parent != "" && link.child != ""
  {
    if links != [] {
      UsableMembers(links[..|links| - 1], link);
    }
  }

  /** A link is reported exactly if some fragment reports it with both ends. */
  lemma {:induction false} ReportedIff(fragments: seq<Fragment>, link: Link)
    ensures link in ReportedLinks(fragments) <==>
              link.parent != "" && link.child != "" && exists f :: f in fragments && link in f.lineage
  {
    if fragments != [] {
      ReportedIff(fragments[..|fragments| - 1], link);
      UsableMembers(fragments[|fragments| - 1].lineage, link);
    }
  }

  /** Of fragments with the same identifier the last one is remembered. */
  lemma {:induction false} LastIsRemembered(fragments: seq<Fragment>, id: Id)
    ensures id in Remembered(fragments) <==> exists f :: f in fragments && f.id == id
    ensures id in Remembered(fragments) ==>
              exists k :: 0 <= k < |fragments| && fragments[k] == Remembered(fragments)[id] && fragments[k].id == id
                && forall j :: k < j < |fragments| ==> fragments[j].id != id
  {
    if fragments != [] {
      var n := |fragments| - 1;
      LastIsRemembered(fragments[..n], id);
      if fragments[n].id != id && id in Remembered(fragments) {
        var k :| 0 <= k < n && fragments[..n][k] == Remembered(fragments[..n])[id] && fragments[..n][k].id == id
          && forall j :: k < j < n ==> fragments[..n][j].id != id;
        assert fragments[k] == fragments[..n][k];
        assert forall j :: k < j < n ==> fragments[j] == fragments[..n][j];
      }
    }
  }

  class InterrogationStore {
    var archivedFragments: map<Id, Fragment>
    var lineageGroups: map<Id, seq<Id>>
    var lineageGroupByFragment: map<Id, Id>
    /** Every link since the last hydration. */
    ghost var links: seq<Link>

    ghost predicate Valid()
      reads this
    {
      && Inverse(lineageGroups, lineageGroupByFragment)
      && Tracks(lineageGroupByFragment, links)
      && (forall id :: id in archivedFragments ==> archivedFragments[id].id == id)
      && "" !in lineageGroupByFragment
    }

    constructor ()
      ensures Valid() && links == [] && archivedFragments == map[]
    {
      archivedFragments, lineageGroups, lineageGroupByFragment, links := map[], map[], map[], [];
      NothingTracks();
    }

    method RememberFragment(fragment: Fragment)
      requires Valid()
      modifies this`archivedFragments
      ensures Valid() && archivedFragments == old(archivedFragments)[fragment.id := fragment]
    {
      archivedFragments := archivedFragments[fragment.id := fragment];
    }

    /** A set keeps the first of equal members. */
    static method Distinct(ids: seq<Id>) returns (r: seq<Id>)
      ensures NoDuplicates(r) && forall x :: x in r <==> x in ids
    {
      r := [];
      var i := 0;
      while i < |ids|
        invariant i <= |ids| && NoDuplicates(r)
        invariant forall x :: x in r <==> x in ids[..i]
      {
        assert ids[..i + 1] == ids[..i] + [ids[i]];
        if ids[i] !in r {
          r := r + [ids[i]];
        }
        i := i + 1;
      }
      assert ids[..|ids|] == ids;
    }

    method Assign(members: seq<Id>, root: Id)
      modifies this`lineageGroupByFragment
      ensures forall id :: id in lineageGroupByFragment <==> id in old(lineageGroupByFragment) || id in members
      ensures forall id :: id in members ==> lineageGroupByFragment[id] == root
      ensures forall id :: id in old(lineageGroupByFragment) && id !in members ==>
                lineageGroupByFragment[id] == old(lineageGroupByFragment)[id]
    {
      var i := 0;
      while i < |members|
        invariant i <= |members|
        invariant forall id :: id in lineageGroupByFragment <==> id in old(lineageGroupByFragment) || id in members[..i]
        invariant forall id :: id in members[..i] ==> lineageGroupByFragment[id] == root
        invariant forall id :: id in old(lineageGroupByFragment) && id !in members[..i] ==>
                    lineageGroupByFragment[id] == old(lineageGroupByFragment)[id]
      {
        assert members[..i + 1] == members[..i] + [members[i]];
        lineageGroupByFragment := lineageGroupByFragment[members[i] := root];
        i := i + 1;
      }
      assert members[..|members|] == members;
    }

    /** A link makes one group of two. */
    method ConnectLineage(parentFragmentId: Id, childFragmentId: Id)
      requires Valid() && parentFragmentId != "" && childFragmentId != ""
      modifies this`lineageGroups, this`lineageGroupByFragment, this`links
      ensures Valid() && links == old(links) + [Link(parentFragmentId, childFragmentId)]
    {
      hide Inverse, Tracks, Same;
      var parentRoot := RootOf(lineageGroupByFragment, parentFragmentId);
      var childRoot := RootOf(lineageGroupByFragment, childFragmentId);
      var listed := [parentFragmentId, childFragmentId] + GroupOrNone(lineageGroups, parentRoot)
        + GroupOrNone(lineageGroups, childRoot);
      var members := Distinct(listed);
      ghost var groups, groupOf := lineageGroups, lineageGroupByFragment;
      forall x
        ensures x in members <==> Same(groupOf, x, parentFragmentId) || Same(groupOf, x, childFragmentId)
      {
        GroupMembers(groups, groupOf, parentFragmentId, x);
        GroupMembers(groups, groupOf, childFragmentId, x);
      }
      if childRoot != parentRoot {
        lineageGroups := lineageGroups - {childRoot};
      }
      lineageGroups := lineageGroups[parentRoot := members];
      Assign(members, parentRoot);
      ghost var link := Link(parentFragmentId, childFragmentId);
      MergedInverse(groups, groupOf, members, parentFragmentId, childFragmentId, lineageGroups, lineageGroupByFragment);
      MergedTracks(groups, groupOf, links, members, link, lineageGroups, lineageGroupByFragment);
      NoEmptyMember(groupOf, parentFragmentId, childFragmentId);
      links := links + [link];
    }

    /** A hydrated store remembers the last fragment of each id, and its groups are those of
        the links that the fragments report. */
    method HydrateFragmentHistory(fragments: seq<Fragment>)
      modifies this
      ensures Valid() && links == ReportedLinks(fragments) && archivedFragments == Remembered(fragments)
    {
      archivedFragments, lineageGroups, lineageGroupByFragment, links := map[], map[], map[], [];
      NothingTracks();
      hide Inverse, Tracks;
      RememberAll(fragments);
      var i := 0;
      assert fragments[..0] == [];
      while i < |fragments|
        invariant i <= |fragments| && Valid()
        invariant links == ReportedLinks(fragments[..i]) && archivedFragments == Remembered(fragments)
      {
        ghost var before := links;
        assert fragments[..i + 1][..i] == fragments[..i];
        var relations := fragments[i].lineage;
        var j := 0;
        assert relations[..0] == [];
        while j < |relations|
          invariant j <= |relations| && Valid()
          invariant links == before + Usable(relations[..j]) && archivedFragments == Remembered(fragments)
        {
          assert relations[..j + 1][..j] == relations[..j];
          if relations[j].parent != "" && relations[j].child != "" {
            ConnectLineage(relations[j].parent, relations[j].child);
          }
          j := j + 1;
        }
        assert relations[..|relations|] == relations;
        i := i + 1;
      }
      assert fragments[..|fragments|] == fragments;
    }

    method RememberAll(fragments: seq<Fragment>)
      requires Valid() && archivedFragments == map[]
      modifies this`archivedFragments
      ensures Valid() && archivedFragments == Remembered(fragments)
    {
      var i := 0;
      assert fragments[..0] == [];
      while i < |fragments|
        invariant i <= |fragments| && Valid() && archivedFragments == Remembered(fragments[..i])
      {
        assert fragments[..i + 1][..i] == fragments[..i];
        RememberFragment(fragments[i]);
        i := i + 1;
      }
      assert fragments[..|fragments|] == fragments;
    }

    /** The archived fragments among some ids. */
    method Archived(ids: seq<Id>) returns (found: seq<Fragment>)
      requires NoDuplicates(ids) && forall id :: id in archivedFragments ==> archivedFragments[id].id == id
      ensures NoDuplicates(found)
      ensures forall f :: f in found <==> f.id in ids && f.id in archivedFragments && archivedFragments[f.id] == f
    {
      found := [];
      var i := 0;
      while i < |ids|
        invariant i <= |ids| && NoDuplicates(found)
        invariant forall f :: f in found <==>
                  f.id in ids[..i] && f.id in archivedFragments && archivedFragments[f.id] == f
      {
        assert ids[..i + 1] == ids[..i] + [ids[i]];
        if ids[i] in archivedFragments {
          assert ids[i] !in ids[..i];
          found := found + [archivedFragments[ids[i]]];
        }
        i := i + 1;
      }
      assert ids[..|ids|] == ids;
    }

    /** The history of a fragment: every archived fragment connected to it, once, in order. */
    method FragmentHistory(fragmentId: Id, idLe: (Id, Id) -> bool) returns (history: seq<Fragment>)
      requires Valid() && TotalOrder(idLe)
      ensures Sorted(history, HistoryOrder(idLe)) && NoDuplicates(history)
      ensures forall i, j :: 0 <= i < j < |history| ==>
                && history[i].startedAtMs <= history[j].startedAtMs
                && (history[i].startedAtMs == history[j].startedAtMs ==>
                      && history[i].ordinal <= history[j].ordinal
                      && (history[i].ordinal == history[j].ordinal ==> idLe(history[i].id, history[j].id)))
      ensures forall f :: f in history <==>
              f.id in archivedFragments && archivedFragments[f.id] == f && Connected(links, fragmentId, f.id)
    {
      hide Inverse, Connected, Same;
      var ids := if fragmentId in lineageGroupByFragment
        then GroupOrNone(lineageGroups, lineageGroupByFragment[fragmentId]) else [fragmentId];
      HistoryIds(lineageGroups, lineageGroupByFragment, fragmentId, ids);
      var found := Archived(ids);
      var le := HistoryOrder(idLe);
      history := Sort(found, le);
      HistoryOrderIsTotal(idLe);
      SortSorted(found, le);
      SortNoDuplicates(found, le);
      forall f
        ensures f in history <==> f in found
      {
        SortMembers(found, le, f);
      }
      assert forall i, j :: 0 <= i < j < |history| ==> le(history[i], history[j]);
    }
  }

  lemma NoEmptyMember(groupOf: map<Id, Id>, p: Id, c: Id)
    requires "" !in groupOf && p != "" && c != ""
    ensures !Same(groupOf, "", p) && !Same(groupOf, "", c)
  {
  }

  lemma HistoryIds(groups: map<Id, seq<Id>>, groupOf: map<Id, Id>, id: Id, ids: seq<Id>)
    requires Inverse(groups, groupOf)
    requires ids == if id in groupOf then GroupOrNone(groups, groupOf[id]) else [id]
    ensures NoDuplicates(ids) && forall x :: x in ids <==> Same(groupOf, id, x)
  {
  }
}

/**
 Agenda points of a compte rendu: a forest of <point> elements is flattened into
 one list, and one tree is rebuilt from two sources, the XML nesting and the
 "nearest preceding smaller nivpoint" rule.
 */
module DebatePoints {
  import opened Prelude

  type Uid = string

  /** A <point> element. A missing id_syceron is "", an unreadable nivpoint is None. */
  datatype Node = Node(uid: Uid, nivpoint: Option<int>, content: string, children: seq<Node>)

  datatype Point = Point(uid: Uid, parentUid: Option<Uid>, content: string)

  /** 0 counts as missing, like None. */
  function Level(n: Node): int {
    if n.nivpoint.Some? && n.nivpoint.value != 0 then n.nivpoint.value else 1
  }

  /** A level that is missing, unreadable or zero is 1. */
  lemma LevelIs(n: Node)
    ensures n.nivpoint.None? || n.nivpoint == Some(0) ==> Level(n) == 1
    ensures n.nivpoint.Some? && n.nivpoint != Some(0) ==> Some(Level(n)) == n.nivpoint
  {
  }

  // ---------------------------------------------------------------- specification

  /** A kept node together with the uid of the <point> around it, if any. */
  datatype Entry = Entry(node: Node, enclosing: Option<Uid>)

  function Entries(n: Node, enclosing: Option<Uid>): seq<Entry> {
    if n.uid == "" then [] else [Entry(n, enclosing)] + ForestEntries(n.children, Some(n.uid))
  }

  function ForestEntries(ns: seq<Node>, enclosing: Option<Uid>): seq<Entry> {
    if ns == [] then [] else Entries(ns[0], enclosing) + ForestEntries(ns[1..], enclosing)
  }

  lemma ForestStep(ns: seq<Node>, enclosing: Option<Uid>, k: nat, before: seq<Entry>)
    requires k < |ns|
    ensures before + ForestEntries(ns[k..], enclosing)
         == before + Entries(ns[k], enclosing) + ForestEntries(ns[k + 1..], enclosing)
  {
    assert ns[k..][0] == ns[k] && ns[k..][1..] == ns[k + 1..];
  }

  function Levels(es: seq<Entry>): seq<int> {
    seq(|es|, i requires 0 <= i < |es| => Level(es[i].node))
  }

  /** k is the last position whose level is below `niv`. */
  ghost predicate NearestBelow(levels: seq<int>, niv: int, k: int) {
    && 0 <= k < |levels|
    && levels[k] < niv
    && forall j :: k < j < |levels| ==> levels[j] >= niv
  }

  function SectionIndex(levels: seq<int>, niv: int): (r: Option<nat>)
    ensures r.None? <==> forall j :: 0 <= j < |levels| ==> levels[j] >= niv
    ensures r.Some? ==> NearestBelow(levels, niv, r.value)
  {
    if levels == [] then None
    else if levels[|levels| - 1] < niv then Some(|levels| - 1)
    else SectionIndex(levels[..|levels| - 1], niv)
  }

  function ParentIndex(es: seq<Entry>, i: nat): Option<nat>
    requires i < |es|
  {
    SectionIndex(Levels(es)[..i], Level(es[i].node))
  }

  function UidAt(es: seq<Entry>, at: Option<nat>): Option<Uid>
    requires at.Some? ==> at.value < |es|
  {
    if at.Some? then Some(es[at.value].node.uid) else None
  }

  function ParentUid(es: seq<Entry>, i: nat): Option<Uid>
    requires i < |es|
  {
    if es[i].enclosing.Some? then es[i].enclosing
    else UidAt(es, ParentIndex(es, i))
  }

  function Points(es: seq<Entry>): seq<Point> {
    seq(|es|, i requires 0 <= i < |es| => Point(es[i].node.uid, ParentUid(es, i), es[i].node.content))
  }

  lemma PointsSnoc(es: seq<Entry>, e: Entry)
    ensures Levels(es + [e]) == Levels(es) + [Level(e.node)]
    ensures Points(es + [e]) == Points(es) + [Point(e.node.uid, ParentUid(es + [e], |es|), e.node.content)]
  {
    var all := es + [e];
    assert Levels(all) == Levels(es) + [Level(e.node)];
    forall i | 0 <= i < |es| ensures ParentUid(all, i) == ParentUid(es, i) {
      assert Levels(all)[..i] == Levels(es)[..i];
    }
  }

  // ---------------------------------------------------------------- the adapter

  /** The two lists that the recursion appends to. */
  class Collector {
    var out: seq<Point>
    var levels: seq<int>
    ghost var entries: seq<Entry>

    ghost predicate Valid()
      reads this
    {
      out == Points(entries) && levels == Levels(entries)
    }

    constructor ()
      ensures Valid() && entries == []
    {
      out, levels, entries := [], [], [];
    }

    /** Backward search over the two parallel lists. */
    method SectionParent(nivpoint: int) returns (r: Option<Uid>)
      requires |out| == |levels|
      ensures r.None? <==> forall j :: 0 <= j < |levels| ==> levels[j] >= nivpoint
      ensures r.Some? ==> exists k :: NearestBelow(levels, nivpoint, k) && r.value == out[k].uid
    {
      var k := |levels|;
      while k > 0
        invariant 0 <= k <= |levels|
        invariant forall j :: k <= j < |levels| ==> levels[j] >= nivpoint
      {
        k := k - 1;
        if levels[k] < nivpoint {
          assert NearestBelow(levels, nivpoint, k);
          return Some(out[k].uid);
        }
      }
      return None;
    }

    method CollectPoints(node: Node, parentUid: Option<Uid>)
      requires Valid()
      modifies this
      ensures Valid() && entries == old(entries) + Entries(node, parentUid)
      decreases node
    {
      if node.uid == "" {
        return;
      }
      var nivpoint := Level(node);
      var parent := parentUid;
      if parent.None? {
        parent := SectionParent(nivpoint);
      }
      ghost var e := Entry(node, parentUid);
      PointsSnoc(entries, e);
      assert parent == ParentUid(entries + [e], |entries|) by {
        assert Levels(entries + [e])[..|entries|] == levels;
      }
      out := out + [Point(node.uid, parent, node.content)];
      levels := levels + [nivpoint];
      entries := entries + [e];

      ghost var start := entries;
      assert node.children[0..] == node.children;
      for k := 0 to |node.children|
        invariant Valid()
        invariant entries + ForestEntries(node.children[k..], Some(node.uid))
               == start + ForestEntries(node.children, Some(node.uid))
      {
        ForestStep(node.children, Some(node.uid), k, entries);
        CollectPoints(node.children[k], Some(node.uid));
      }
      assert node.children[|node.children|..] == [];
      assert entries == start + ForestEntries(node.children, Some(node.uid));
      assert start == old(entries) + [e];
    }
  }

  /** The points of one compte rendu. */
  method ParsePoints(forest: seq<Node>) returns (points: seq<Point>, levels: seq<int>)
    ensures points == Points(ForestEntries(forest, None))
    ensures levels == Levels(ForestEntries(forest, None))
  {
    var c := new Collector();
    assert forest[0..] == forest;
    for k := 0 to |forest|
      invariant c.Valid()
      invariant c.entries + ForestEntries(forest[k..], None) == ForestEntries(forest, None)
    {
      ForestStep(forest, None, k, c.entries);
      c.CollectPoints(forest[k], None);
    }
    assert c.entries == ForestEntries(forest, None) by {
      assert forest[|forest|..] == [];
      assert c.entries + [] == c.entries;
    }
    points, levels := c.out, c.levels;
  }

  // ---------------------------------------------------------------- preorder of the kept nodes

  /** The forest without the subtrees whose root has no uid. */
  function Prune(ns: seq<Node>): seq<Node> {
    if ns == [] then []
    else if ns[0].uid == "" then Prune(ns[1..])
    else [ns[0].(children := Prune(ns[0].children))] + Prune(ns[1..])
  }

  /** Uids in depth-first order, root first. */
  function Preorder(ns: seq<Node>): seq<Uid> {
    if ns == [] then [] else [ns[0].uid] + Preorder(ns[0].children) + Preorder(ns[1..])
  }

  function Uids(points: seq<Point>): seq<Uid> {
    seq(|points|, i requires 0 <= i < |points| => points[i].uid)
  }

  function EntryUids(es: seq<Entry>): seq<Uid> {
    seq(|es|, i requires 0 <= i < |es| => es[i].node.uid)
  }

  lemma EntryUidsAppend(a: seq<Entry>, b: seq<Entry>)
    ensures EntryUids(a + b) == EntryUids(a) + EntryUids(b)
  {
  }

  lemma PrunedPreorder(ns: seq<Node>)
    requires ns != [] && ns[0].uid != ""
    ensures Preorder(Prune(ns)) == [ns[0].uid] + Preorder(Prune(ns[0].children)) + Preorder(Prune(ns[1..]))
  {
    var p := Prune(ns);
    assert p[0] == ns[0].(children := Prune(ns[0].children)) && p[1..] == Prune(ns[1..]);
  }

  lemma {:induction false} EntriesArePreorder(ns: seq<Node>, enclosing: Option<Uid>)
    ensures EntryUids(ForestEntries(ns, enclosing)) == Preorder(Prune(ns))
  {
    if ns == [] {
    } else {
      EntriesArePreorder(ns[1..], enclosing);
      if ns[0].uid != "" {
        EntriesArePreorder(ns[0].children, Some(ns[0].uid));
        var inner := ForestEntries(ns[0].children, Some(ns[0].uid));
        var head := Entries(ns[0], enclosing);
        assert EntryUids(head) == [ns[0].uid] + EntryUids(inner);
        EntryUidsAppend(head, ForestEntries(ns[1..], enclosing));
        PrunedPreorder(ns);
      }
    }
  }

  /** The list is the depth-first preorder of what remains once uid-less subtrees are cut. */
  lemma PointsArePreorder(forest: seq<Node>)
    ensures Uids(Points(ForestEntries(forest, None))) == Preorder(Prune(forest))
  {
    EntriesArePreorder(forest, None);
    assert Uids(Points(ForestEntries(forest, None))) == EntryUids(ForestEntries(forest, None));
  }

  // ---------------------------------------------------------------- one acyclic forest

  ghost predicate Earlier(es: seq<Entry>, i: int, uid: Uid) {
    exists j :: 0 <= j < i < |es| && es[j].node.uid == uid
  }

  lemma {:induction false} EnclosingIsEarlier(ns: seq<Node>, enclosing: Option<Uid>, i: nat)
    requires i < |ForestEntries(ns, enclosing)|
    ensures var es := ForestEntries(ns, enclosing);
            es[i].enclosing == enclosing || (es[i].enclosing.Some? && Earlier(es, i, es[i].enclosing.value))
  {
    var es := ForestEntries(ns, enclosing);
    var head, tail := Entries(ns[0], enclosing), ForestEntries(ns[1..], enclosing);
    if i < |head| {
      if i > 0 {
        var inner := ForestEntries(ns[0].children, Some(ns[0].uid));
        assert es[i] == inner[i - 1] && es[0].node.uid == ns[0].uid;
        EnclosingIsEarlier(ns[0].children, Some(ns[0].uid), i - 1);
        if Earlier(inner, i - 1, inner[i - 1].enclosing.value) {
          var j :| 0 <= j < i - 1 && inner[j].node.uid == inner[i - 1].enclosing.value;
          assert es[j + 1] == inner[j];
        }
      }
    } else {
      assert es[i] == tail[i - |head|];
      EnclosingIsEarlier(ns[1..], enclosing, i - |head|);
      if tail[i - |head|].enclosing != enclosing {
        var j :| 0 <= j < i - |head| && tail[j].node.uid == es[i].enclosing.value;
        assert es[j + |head|] == tail[j];
      }
    }
  }

  /** Whatever the document, a parent uid is the uid of a strictly earlier point. */
  lemma ParentIsEarlier(forest: seq<Node>, i: nat)
    requires i < |Points(ForestEntries(forest, None))|
    ensures var points := Points(ForestEntries(forest, None));
            points[i].parentUid.Some? ==>
              exists j :: 0 <= j < i && points[j].uid == points[i].parentUid.value
  {
    var es := ForestEntries(forest, None);
    var points := Points(es);
    EnclosingIsEarlier(forest, None, i);
    if points[i].parentUid.Some? {
      if es[i].enclosing.Some? {
        var j :| 0 <= j < i && es[j].node.uid == es[i].enclosing.value;
        assert points[j].uid == points[i].parentUid.value;
      } else {
        var k := ParentIndex(es, i).value;
        assert points[k].uid == points[i].parentUid.value;
      }
    }
  }

  /** Positions visited by following parent uids. */
  ghost predicate IsParentWalk(points: seq<Point>, walk: seq<nat>) {
    && (forall s :: 0 <= s < |walk| ==> walk[s] < |points|)
    && (forall s :: 0 <= s < |walk| - 1 ==> points[walk[s]].parentUid == Some(points[walk[s + 1]].uid))
  }

  /**
   With distinct uids, every walk along parents goes strictly backwards: it
   repeats nothing and stops after at most as many steps as there are points before it.
   */
  lemma {:induction false} ParentWalksDescend(forest: seq<Node>, walk: seq<nat>)
    requires Distinct(Preorder(Prune(forest)))
    requires |walk| > 0 && IsParentWalk(Points(ForestEntries(forest, None)), walk)
    ensures forall s, t :: 0 <= s < t < |walk| ==> walk[t] < walk[s]
    ensures |walk| <= walk[0] + 1
  {
    var points := Points(ForestEntries(forest, None));
    if |walk| > 1 {
      var rest := walk[1..];
      assert IsParentWalk(points, rest) by {
        forall s | 0 <= s < |rest| - 1
          ensures points[rest[s]].parentUid == Some(points[rest[s + 1]].uid)
        { assert rest[s] == walk[s + 1] && rest[s + 1] == walk[s + 2]; }
      }
      ParentWalksDescend(forest, rest);
      ParentIsEarlier(forest, walk[0]);
      PointsArePreorder(forest);
      var j :| 0 <= j < walk[0] && points[j].uid == points[walk[0]].parentUid.value;
      assert Uids(points)[j] == Uids(points)[walk[1]];
      assert rest[0] == walk[1] == j;
      forall s, t | 0 <= s < t < |walk| ensures walk[t] < walk[s] {
        assert walk[t] == rest[t - 1];
        if s > 0 { assert walk[s] == rest[s - 1]; }
      }
    }
  }

  /** The parent of a point outside any other is the nearest preceding smaller level, if there is one. */
  lemma TopLevelParent(es: seq<Entry>, i: nat)
    requires i < |es| && es[i].enclosing.None?
    ensures var levels := Levels(es);
            && (Points(es)[i].parentUid.None? <==> forall j :: 0 <= j < i ==> levels[j] >= levels[i])
            && (Points(es)[i].parentUid.Some? ==>
                  exists k :: NearestBelow(levels[..i], levels[i], k) && Points(es)[k].uid == Points(es)[i].parentUid.value)
  {
    var before := Levels(es)[..i];
    var r := SectionIndex(before, Level(es[i].node));
    if r.Some? {
      assert NearestBelow(before, Levels(es)[i], r.value) && Points(es)[r.value].uid == Points(es)[i].parentUid.value;
    } else {
      forall j | 0 <= j < i ensures Levels(es)[j] >= Levels(es)[i] { assert before[j] >= Levels(es)[i]; }
    }
  }

  // ---------------------------------------------------------------- parents as positions

  /** Position of the enclosing <point> of each entry, or `around`; the first entry stands at `at`. */
  function Outer(n: Node, at: nat, around: int): seq<int> {
    if n.uid == "" then [] else [around] + ForestOuter(n.children, at + 1, at)
  }

  function ForestOuter(ns: seq<Node>, at: nat, around: int): seq<int> {
    if ns == [] then []
    else
      var head := Outer(ns[0], at, around);
      head + ForestOuter(ns[1..], at + |head|, around)
  }

  /** An enclosing point stands before, and what stands between it and an enclosed one lies inside it too. */
  ghost predicate Nests(outer: seq<int>, at: nat, around: int) {
    && (forall i :: 0 <= i < |outer| ==> outer[i] == around || at <= outer[i] < at + i)
    && (forall i, j :: 0 <= i < j < |outer| && at <= outer[j] < at + i ==> outer[i] >= outer[j])
  }

  lemma NestsJoin(head: seq<int>, tail: seq<int>, at: nat, around: int)
    requires around < at && Nests(head, at, around) && Nests(tail, at + |head|, around)
    ensures Nests(head + tail, at, around)
  {
    var all := head + tail;
    forall i, j | 0 <= i < j < |all| && at <= all[j] < at + i ensures all[i] >= all[j] {
      if j >= |head| {
        assert all[j] == tail[j - |head|] >= at + |head|;
        assert all[i] == tail[i - |head|];
      }
    }
  }

  lemma NestsUnder(inner: seq<int>, at: nat, around: int)
    requires around < at && Nests(inner, at + 1, at)
    ensures Nests([around] + inner, at, around)
  {
    var all := [around] + inner;
    forall i, j | 0 <= i < j < |all| && at <= all[j] < at + i ensures all[i] >= all[j] {
      assert all[i] == inner[i - 1] && all[j] == inner[j - 1];
    }
  }

  /** The entries of `es` name as enclosing the uids that stand at the positions of `outer`. */
  ghost predicate NamesOuter(es: seq<Entry>, outer: seq<int>, at: nat, around: int, enclosing: Option<Uid>) {
    && |outer| == |es|
    && forall i :: 0 <= i < |es| ==>
         && (outer[i] == around ==> es[i].enclosing == enclosing)
         && (at <= outer[i] < at + i ==> es[i].enclosing == Some(es[outer[i] - at].node.uid))
  }

  lemma NamesJoin(es: seq<Entry>, head: seq<int>, rest: seq<Entry>, tail: seq<int>, at: nat, around: int, enclosing: Option<Uid>)
    requires around < at && Nests(tail, at + |head|, around)
    requires NamesOuter(es, head, at, around, enclosing) && NamesOuter(rest, tail, at + |head|, around, enclosing)
    ensures NamesOuter(es + rest, head + tail, at, around, enclosing)
  {
    forall i | |head| <= i < |head + tail|
      ensures (head + tail)[i] == tail[i - |head|] && (es + rest)[i] == rest[i - |head|]
    { }
  }

  lemma NamesUnder(e: Entry, within: seq<Entry>, inner: seq<int>, at: nat, around: int)
    requires around < at && Nests(inner, at + 1, at) && NamesOuter(within, inner, at + 1, at, Some(e.node.uid))
    ensures NamesOuter([e] + within, [around] + inner, at, around, e.enclosing)
  {
    forall i | 0 < i < 1 + |inner| ensures ([around] + inner)[i] == inner[i - 1] && ([e] + within)[i] == within[i - 1] { }
  }

  lemma {:induction false} NodeOuterNests(n: Node, at: nat, around: int, enclosing: Option<Uid>)
    requires around < at
    ensures Nests(Outer(n, at, around), at, around)
    ensures NamesOuter(Entries(n, enclosing), Outer(n, at, around), at, around, enclosing)
    decreases n, 1
  {
    if n.uid == "" {
    } else {
      OuterNests(n.children, at + 1, at, Some(n.uid));
      NestsUnder(ForestOuter(n.children, at + 1, at), at, around);
      NamesUnder(Entry(n, enclosing), ForestEntries(n.children, Some(n.uid)), ForestOuter(n.children, at + 1, at), at, around);
    }
  }

  lemma {:induction false} OuterNests(ns: seq<Node>, at: nat, around: int, enclosing: Option<Uid>)
    requires around < at
    ensures Nests(ForestOuter(ns, at, around), at, around)
    ensures NamesOuter(ForestEntries(ns, enclosing), ForestOuter(ns, at, around), at, around, enclosing)
    decreases ns, 0
  {
    if ns == [] {
    } else {
      var head := Outer(ns[0], at, around);
      var tail := ForestOuter(ns[1..], at + |head|, around);
      NodeOuterNests(ns[0], at, around, enclosing);
      OuterNests(ns[1..], at + |head|, around, enclosing);
      NestsJoin(head, tail, at, around);
      NamesJoin(Entries(ns[0], enclosing), head, ForestEntries(ns[1..], enclosing), tail, at, around, enclosing);
    }
  }

  /** The heading of entry `i`, or -1. */
  function HeadingAt(levels: seq<int>, i: nat): (k: int)
    requires i < |levels|
    ensures -1 <= k < i
    ensures k >= 0 ==> NearestBelow(levels[..i], levels[i], k)
    ensures k < 0 ==> forall j :: 0 <= j < i ==> levels[j] >= levels[i]
  {
    var found := SectionIndex(levels[..i], levels[i]);
    assert found.None? ==> forall j :: 0 <= j < i ==> levels[..i][j] == levels[j];
    if found.Some? then found.value else -1
  }

  function ParentsOf(levels: seq<int>, outer: seq<int>): seq<int>
    requires |levels| == |outer|
  {
    seq(|outer|, i requires 0 <= i < |outer| => if outer[i] >= 0 then outer[i] else HeadingAt(levels, i))
  }

  /** The parent of each point of a document, as a position, or -1. */
  function Parents(forest: seq<Node>): (r: seq<int>)
    ensures |r| == |ForestEntries(forest, None)|
  {
    OuterNests(forest, 0, -1, None);
    ParentsOf(Levels(ForestEntries(forest, None)), ForestOuter(forest, 0, -1))
  }

  /** These positions are what the parent uids of the list say. */
  lemma ParentsAreRecorded(forest: seq<Node>, i: nat)
    requires i < |Parents(forest)|
    ensures var points := Points(ForestEntries(forest, None));
            && |Parents(forest)| == |points| && -1 <= Parents(forest)[i] < i
            && points[i].parentUid == if Parents(forest)[i] < 0 then None else Some(points[Parents(forest)[i]].uid)
  {
    OuterNests(forest, 0, -1, None);
  }

  lemma NearestBelowIsUnique(levels: seq<int>, niv: int, j: int, k: int)
    requires NearestBelow(levels, niv, j) && NearestBelow(levels, niv, k)
    ensures j == k
  {
  }

  // ---------------------------------------------------------------- arcs that cross

  /** No arc, from a parent to its child, starts inside another one and ends beyond it; a root hangs from -1. */
  ghost predicate NoArcsCross(parents: seq<int>) {
    forall i, j :: 0 <= i < j < |parents| ==> !(parents[i] < parents[j] < i)
  }

  /**
   The point at `i`, outside any other, has its heading inside an enclosing point, and
   the point at `j`, directly in that one or further out, comes between the two.
   */
  ghost predicate HeadingInside(levels: seq<int>, outer: seq<int>, i: int, j: int) {
    && 0 <= j < i < |outer| == |levels|
    && outer[i] < 0 && 0 <= outer[j] < HeadingAt(levels, i) < j
  }

  lemma HeadingIsNotBefore(levels: seq<int>, i: nat, k: nat)
    requires k < i < |levels| && levels[k] < levels[i]
    ensures HeadingAt(levels, i) >= k
  {
    assert levels[..i][k] == levels[k];
  }

  lemma HeadingsNeverCross(levels: seq<int>, i: nat, j: nat)
    requires i < j < |levels|
    ensures !(HeadingAt(levels, i) < HeadingAt(levels, j) < i)
  {
    var k := HeadingAt(levels, j);
    if 0 <= k < i {
      assert levels[..j][i] >= levels[j] > levels[..j][k];
      HeadingIsNotBefore(levels, i, k);
    }
  }

  /** Arcs cross exactly when some heading lies inside an enclosing point that goes on after it. */
  lemma ArcsCrossIffHeadingInside(levels: seq<int>, outer: seq<int>)
    requires |levels| == |outer| && Nests(outer, 0, -1)
    ensures NoArcsCross(ParentsOf(levels, outer)) <==> forall i, j :: !HeadingInside(levels, outer, i, j)
  {
    var parents := ParentsOf(levels, outer);
    forall i, j | 0 <= i < j < |parents| && parents[i] < parents[j] < i ensures HeadingInside(levels, outer, j, i) {
      if outer[i] < 0 && outer[j] < 0 { HeadingsNeverCross(levels, i, j); }
    }
    forall i, j | HeadingInside(levels, outer, i, j) ensures parents[j] < parents[i] < j { }
  }

  // ---------------------------------------------------------------- the tree that the list encodes

  datatype Tree = Tree(index: nat, kids: seq<Tree>)

  function TreePreorder(ts: seq<Tree>): seq<nat> {
    if ts == [] then [] else [ts[0].index] + TreePreorder(ts[0].kids) + TreePreorder(ts[1..])
  }

  /** Each tree of `ts` hangs under `parent`, and so on downwards. */
  ghost predicate EdgesAreParents(ts: seq<Tree>, parent: int, parents: seq<int>) {
    ts == [] ||
    (&& ts[0].index < |parents| && parents[ts[0].index] == parent
     && EdgesAreParents(ts[0].kids, ts[0].index, parents)
     && EdgesAreParents(ts[1..], parent, parents))
  }

  function Range(lo: nat, hi: nat): (r: seq<nat>)
    requires lo <= hi
    ensures |r| == hi - lo
  {
    seq(hi - lo, k requires 0 <= k < hi - lo => lo + k)
  }

  /** The list is the depth-first preorder of one forest, whose edges are the recorded parents. */
  ghost predicate IsPreorderOfItsTree(parents: seq<int>) {
    exists ts :: TreePreorder(ts) == Range(0, |parents|) && EdgesAreParents(ts, -1, parents)
  }

  lemma RangeSplit(lo: nat, m: nat, hi: nat)
    requires lo < m <= hi
    ensures Range(lo, hi) == [lo] + Range(lo + 1, m) + Range(m, hi)
  {
  }

  function SubtreeEnd(parents: seq<int>, root: nat, from: nat, hi: nat): (m: nat)
    requires root < from <= hi <= |parents|
    ensures from <= m <= hi
    ensures forall x :: from <= x < m ==> parents[x] >= root
    ensures m < hi ==> parents[m] < root
    decreases hi - from
  {
    if from == hi || parents[from] < root then from else SubtreeEnd(parents, root, from + 1, hi)
  }

  function Build(parents: seq<int>, lo: nat, hi: nat): seq<Tree>
    requires lo <= hi <= |parents|
    decreases hi - lo
  {
    if lo == hi then []
    else var m := SubtreeEnd(parents, lo, lo + 1, hi);
         [Tree(lo, Build(parents, lo + 1, m))] + Build(parents, m, hi)
  }

  lemma ConsTree(t: Tree, ts: seq<Tree>)
    ensures TreePreorder([t] + ts) == [t.index] + TreePreorder(t.kids) + TreePreorder(ts)
  {
    assert ([t] + ts)[0] == t && ([t] + ts)[1..] == ts;
  }

  lemma ConsEdges(t: Tree, ts: seq<Tree>, parent: int, parents: seq<int>)
    requires t.index < |parents| && parents[t.index] == parent
    requires EdgesAreParents(t.kids, t.index, parents) && EdgesAreParents(ts, parent, parents)
    ensures EdgesAreParents([t] + ts, parent, parents)
  {
    assert ([t] + ts)[0] == t && ([t] + ts)[1..] == ts;
  }

  lemma {:induction false} BuildPreorder(parents: seq<int>, lo: nat, hi: nat)
    requires lo <= hi <= |parents|
    ensures TreePreorder(Build(parents, lo, hi)) == Range(lo, hi)
    decreases hi - lo
  {
    if lo == hi {
    } else {
      var m := SubtreeEnd(parents, lo, lo + 1, hi);
      BuildPreorder(parents, lo + 1, m);
      BuildPreorder(parents, m, hi);
      ConsTree(Tree(lo, Build(parents, lo + 1, m)), Build(parents, m, hi));
      RangeSplit(lo, m, hi);
    }
  }

  /** Parents come first. */
  ghost predicate Backward(parents: seq<int>) { forall i :: 0 <= i < |parents| ==> -1 <= parents[i] < i }

  /** From `lo` to `hi` everything hangs under `parent` or under something of this stretch. */
  ghost predicate HangsUnder(parents: seq<int>, parent: int, lo: nat, hi: nat)
    requires hi <= |parents|
  {
    forall x :: lo <= x < hi ==> parents[x] == parent || parents[x] >= lo
  }

  lemma {:induction false} BuildEdges(parents: seq<int>, parent: int, lo: nat, hi: nat)
    requires lo <= hi <= |parents| && Backward(parents) && NoArcsCross(parents) && HangsUnder(parents, parent, lo, hi)
    ensures EdgesAreParents(Build(parents, lo, hi), parent, parents)
    decreases hi - lo
  {
    if lo == hi {
    } else {
      var m := SubtreeEnd(parents, lo, lo + 1, hi);
      assert HangsUnder(parents, lo, lo + 1, m);
      forall x | m <= x < hi ensures parents[x] == parent || parents[x] >= m {
        assert m < x ==> !(parents[m] < parents[x] < m);
      }
      BuildEdges(parents, lo, lo + 1, m);
      BuildEdges(parents, parent, m, hi);
      ConsEdges(Tree(lo, Build(parents, lo + 1, m)), Build(parents, m, hi), parent, parents);
    }
  }

  ghost predicate NoneCrossIn(parents: seq<int>, lo: nat, hi: nat)
    requires hi <= |parents|
  {
    forall i, j :: lo <= i < j < hi ==> !(parents[i] < parents[j] < i)
  }

  lemma RangeHead(lo: nat, hi: nat, a: seq<nat>, b: seq<nat>, first: nat)
    requires lo <= hi && Range(lo, hi) == [first] + a + b
    ensures lo < hi && first == lo && lo + 1 + |a| <= hi
    ensures a == Range(lo + 1, lo + 1 + |a|) && b == Range(lo + 1 + |a|, hi)
  {
    var r := Range(lo, hi);
    assert |r| == 1 + |a| + |b|;
    assert r[0] == first;
    forall k | 0 <= k < |a| ensures a[k] == lo + 1 + k { assert r[1 + k] == a[k]; }
    forall k | 0 <= k < |b| ensures b[k] == lo + 1 + |a| + k { assert r[1 + |a| + k] == b[k]; }
  }

  /** Conversely the edges of a forest listed in preorder never cross. */
  lemma {:induction false} PreorderEdgesNeverCross(ts: seq<Tree>, parents: seq<int>, parent: int, lo: nat, hi: nat)
    requires parent < lo <= hi <= |parents|
    requires TreePreorder(ts) == Range(lo, hi) && EdgesAreParents(ts, parent, parents)
    ensures HangsUnder(parents, parent, lo, hi) && NoneCrossIn(parents, lo, hi)
    decreases ts
  {
    if ts == [] {
    } else {
      var kids, rest := TreePreorder(ts[0].kids), TreePreorder(ts[1..]);
      RangeHead(lo, hi, kids, rest, ts[0].index);
      var m := lo + 1 + |kids|;
      PreorderEdgesNeverCross(ts[0].kids, parents, lo, lo + 1, m);
      PreorderEdgesNeverCross(ts[1..], parents, parent, m, hi);
      forall i, j | lo <= i < j < hi ensures !(parents[i] < parents[j] < i) {
        if i == lo {
        } else if i < m <= j {
          assert parents[j] == parent || parents[j] >= m;
        }
      }
    }
  }

  lemma PreorderIffNoArcsCross(parents: seq<int>)
    requires Backward(parents)
    ensures IsPreorderOfItsTree(parents) <==> NoArcsCross(parents)
  {
    if IsPreorderOfItsTree(parents) {
      var ts :| TreePreorder(ts) == Range(0, |parents|) && EdgesAreParents(ts, -1, parents);
      PreorderEdgesNeverCross(ts, parents, -1, 0, |parents|);
    }
    if NoArcsCross(parents) {
      BuildPreorder(parents, 0, |parents|);
      BuildEdges(parents, -1, 0, |parents|);
      assert TreePreorder(Build(parents, 0, |parents|)) == Range(0, |parents|);
    }
  }

  /** No heading lies inside an enclosing point that has a further child before the headed point. */
  ghost predicate NoHeadingInside(forest: seq<Node>) {
    forall i, j :: !HeadingInside(Levels(ForestEntries(forest, None)), ForestOuter(forest, 0, -1), i, j)
  }

  lemma DocumentArcsCrossIff(forest: seq<Node>)
    ensures NoArcsCross(Parents(forest)) <==> NoHeadingInside(forest)
  {
    OuterNests(forest, 0, -1, None);
    ArcsCrossIffHeadingInside(Levels(ForestEntries(forest, None)), ForestOuter(forest, 0, -1));
  }

  /**
   For every document: the list is the preorder of one forest whose edges are the recorded
   parents, iff no recorded arcs cross, iff no heading lies inside an enclosing point that
   goes on after it.
   */
  lemma ListIsPreorderIff(forest: seq<Node>)
    ensures IsPreorderOfItsTree(Parents(forest)) <==> NoArcsCross(Parents(forest))
    ensures IsPreorderOfItsTree(Parents(forest)) <==> NoHeadingInside(forest)
  {
    forall i | 0 <= i < |Parents(forest)| ensures -1 <= Parents(forest)[i] < i { ParentsAreRecorded(forest, i); }
    PreorderIffNoArcsCross(Parents(forest));
    DocumentArcsCrossIff(forest);
  }

  lemma {:induction false} NothingNested(forest: seq<Node>, at: nat)
    requires forall n :: n in forest ==> n.children == []
    ensures forall o :: o in ForestOuter(forest, at, -1) ==> o == -1
  {
    if forest == [] {
    } else {
      assert forest[0] in forest && ForestOuter([], at + 1, at) == [];
      NothingNested(forest[1..], at + |Outer(forest[0], at, -1)|);
    }
  }

  /** In particular without nested points. */
  lemma FlatDocumentIsPreorderOfItsTree(forest: seq<Node>)
    requires forall n :: n in forest ==> n.children == []
    ensures IsPreorderOfItsTree(Parents(forest))
  {
    NothingNested(forest, 0);
    ListIsPreorderIff(forest);
    var levels, outer := Levels(ForestEntries(forest, None)), ForestOuter(forest, 0, -1);
    forall i, j ensures !HeadingInside(levels, outer, i, j) {
      assert 0 <= j < |outer| ==> outer[j] in outer;
    }
  }

  /** A document where they cross. */
  const POINT_B := Node("B", Some(5), "", [])
  const POINT_C := Node("C", Some(9), "", [])
  const POINT_A := Node("A", Some(1), "", [POINT_B, POINT_C])
  const POINT_D := Node("D", Some(7), "", [])

  lemma CrossingEntries()
    ensures ForestEntries([POINT_A, POINT_D], None)
         == [Entry(POINT_A, None), Entry(POINT_B, Some("A")), Entry(POINT_C, Some("A")), Entry(POINT_D, None)]
  {
    assert ForestEntries([], Some("A")) == [] && ForestEntries([], Some("B")) == [] && ForestEntries([], Some("C")) == [];
    assert ForestEntries([POINT_C], Some("A")) == [Entry(POINT_C, Some("A"))];
    assert [POINT_B, POINT_C][1..] == [POINT_C];
    assert ForestEntries([POINT_B, POINT_C], Some("A")) == [Entry(POINT_B, Some("A")), Entry(POINT_C, Some("A"))];
    assert ForestEntries([], Some("D")) == [] && ForestEntries([], None) == [];
    assert ForestEntries([POINT_D], None) == [Entry(POINT_D, None)];
    assert [POINT_A, POINT_D][1..] == [POINT_D];
  }

  lemma CrossingOuter()
    ensures ForestOuter([POINT_A, POINT_D], 0, -1) == [-1, 0, 0, -1]
  {
    assert ForestOuter([POINT_C], 2, 0) == [0];
    assert [POINT_B, POINT_C][1..] == [POINT_C];
    assert ForestOuter([POINT_B, POINT_C], 1, 0) == [0, 0];
    assert Outer(POINT_A, 0, -1) == [-1, 0, 0];
    assert ForestOuter([POINT_D], 3, -1) == [-1];
    assert [POINT_A, POINT_D][1..] == [POINT_D];
  }

  /** D takes B as its heading although A, which encloses B, has a further child C in between. */
  lemma NestedArcsMayCross()
    ensures Uids(Points(ForestEntries([POINT_A, POINT_D], None))) == ["A", "B", "C", "D"]
    ensures |Parents([POINT_A, POINT_D])| == 4
    ensures Parents([POINT_A, POINT_D])[2] == 0 && Parents([POINT_A, POINT_D])[3] == 1
    ensures !IsPreorderOfItsTree(Parents([POINT_A, POINT_D]))
  {
    CrossingEntries();
    CrossingOuter();
    var levels := Levels(ForestEntries([POINT_A, POINT_D], None));
    assert levels == [1, 5, 9, 7];
    assert levels[..3] == [1, 5, 9] && levels[..3][..2] == [1, 5];
    HeadingIsNotBefore(levels, 3, 1);
    NearestBelowIsUnique(levels[..3], 7, HeadingAt(levels, 3), 1);
    assert HeadingInside(levels, ForestOuter([POINT_A, POINT_D], 0, -1), 3, 2);
    ListIsPreorderIff([POINT_A, POINT_D]);
  }
}

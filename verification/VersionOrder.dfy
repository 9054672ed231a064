/**
 The versions of a law text along the navette: how the projection sorts and numbers
 them, and how the article-versions route orders them.
 */
module VersionOrder {
  import opened Prelude
  import opened Sorting

  /** None is any other kind, NULL included. */
  type Kind = Option<TextKind>

  datatype Version = Version(uid: string, kind: Kind, deposited: Option<int>, sourceUrl: string)

  // ---------------------------------------------------------------- the projection

  function ProjectedRank(k: Kind): nat {
    match k case Some(Deposited) => 0 case Some(Commission) => 1 case Some(Adopted) => 2 case None => 9
  }

  /** No date counts as date.max. */
  function DateKey(v: Version): int { if v.deposited.Some? then v.deposited.value else DATE_MAX }

  /** The key of `versions.sort`: (deposit date or date.max, kind). */
  function KeyLe(): (Version, Version) -> bool {
    (x: Version, y: Version) =>
      DateKey(x) < DateKey(y) || (DateKey(x) == DateKey(y) && ProjectedRank(x.kind) <= ProjectedRank(y.kind))
  }

  /** (date, kind, uid), lexicographically. */
  function NavetteLe(): (Version, Version) -> bool {
    (x: Version, y: Version) =>
      || DateKey(x) < DateKey(y)
      || (DateKey(x) == DateKey(y) && ProjectedRank(x.kind) < ProjectedRank(y.kind))
      || (DateKey(x) == DateKey(y) && ProjectedRank(x.kind) == ProjectedRank(y.kind) && TextLe(x.uid, y.uid))
  }

  function UidLe(): (Version, Version) -> bool { (x: Version, y: Version) => TextLe(x.uid, y.uid) }

  lemma NavetteLeIsTotal()
    ensures Total(NavetteLe()) && Transitive(NavetteLe())
  {
    forall x, y ensures NavetteLe()(x, y) || NavetteLe()(y, x) { TextLeTotal(x.uid, y.uid); }
    forall x, y, z | NavetteLe()(x, y) && NavetteLe()(y, z) ensures NavetteLe()(x, z) {
      if TextLe(x.uid, y.uid) && TextLe(y.uid, z.uid) { TextLeTransitive(x.uid, y.uid, z.uid); }
    }
  }

  /** Inserting a version that precedes all others by uid keeps the full order. */
  lemma {:induction false} InsertIsStable(x: Version, s: seq<Version>)
    requires Sorted(s, NavetteLe()) && forall v :: v in s ==> TextLe(x.uid, v.uid)
    ensures Sorted(Insert(x, s, KeyLe()), NavetteLe())
  {
    NavetteLeIsTotal();
    if s == [] || KeyLe()(x, s[0]) {
      forall v | v in s ensures NavetteLe()(x, v) {
        var j :| 0 <= j < |s| && s[j] == v;
        assert s[0] in s && NavetteLe()(x, s[0]);
        assert j > 0 ==> NavetteLe()(s[0], s[j]);
      }
      ConsSorted(x, s, NavetteLe());
    } else {
      var tail := s[1..];
      assert forall v :: v in tail ==> v in s;
      InsertIsStable(x, tail);
      forall v | v in Insert(x, tail, KeyLe()) ensures NavetteLe()(s[0], v) {
        InsertMembers(x, tail, KeyLe(), v);
        if v != x {
          var k :| 0 <= k < |tail| && tail[k] == v;
          assert s[k + 1] == v;
        }
      }
      ConsSorted(s[0], Insert(x, tail, KeyLe()), NavetteLe());
    }
  }

  /** A stable sort by (date, kind) of versions listed by uid is the order by (date, kind, uid). */
  lemma {:induction false} StableSortIsNavetteOrder(vs: seq<Version>)
    requires Sorted(vs, UidLe())
    ensures Sorted(Sort(vs, KeyLe()), NavetteLe())
  {
    if vs == [] {
    } else {
      var rest := vs[1..];
      assert Sorted(rest, UidLe());
      StableSortIsNavetteOrder(rest);
      forall v | v in Sort(rest, KeyLe()) ensures TextLe(vs[0].uid, v.uid) {
        SortMembers(rest, KeyLe(), v);
        var k :| 0 <= k < |rest| && rest[k] == v;
        assert UidLe()(vs[0], vs[k + 1]);
      }
      InsertIsStable(vs[0], Sort(rest, KeyLe()));
    }
  }

  /** The uid is the key of the table. */
  ghost predicate DistinctUids(vs: seq<Version>) {
    forall i, j :: 0 <= i < j < |vs| ==> vs[i].uid != vs[j].uid
  }

  /** Every kind that is neither deposited nor commission ranks with adopted. */
  function RouteRank(k: Kind): nat {
    match k case Some(Deposited) => 0 case Some(Commission) => 1 case Some(Adopted) => 2 case None => 2
  }

  /** deposited_at ascending, NULLS LAST. */
  predicate DateBefore(x: Option<int>, y: Option<int>) {
    x.Some? && (y.None? || x.value < y.value)
  }

  /** ORDER BY deposited_at NULLS LAST, kind, texte_uid */
  function RouteLe(): (Version, Version) -> bool {
    (x: Version, y: Version) =>
      || DateBefore(x.deposited, y.deposited)
      || (x.deposited == y.deposited && RouteRank(x.kind) < RouteRank(y.kind))
      || (x.deposited == y.deposited && RouteRank(x.kind) == RouteRank(y.kind) && TextLe(x.uid, y.uid))
  }

  lemma NavetteLeSeparates(vs: seq<Version>)
    requires DistinctUids(vs)
    ensures AntiSymmetricOn(vs, NavetteLe()) && AntiSymmetricOn(vs, RouteLe())
  {
    forall x, y | x in vs && y in vs && x.uid == y.uid ensures x == y {
      var i :| 0 <= i < |vs| && vs[i] == x;
      var j :| 0 <= j < |vs| && vs[j] == y;
      assert i == j;
    }
    forall x, y | x in vs && y in vs && NavetteLe()(x, y) && NavetteLe()(y, x) ensures x == y {
      TextLeAntiSymmetric(x.uid, y.uid);
    }
    forall x, y | x in vs && y in vs && RouteLe()(x, y) && RouteLe()(y, x) ensures x == y {
      TextLeAntiSymmetric(x.uid, y.uid);
    }
  }

  // ---------------------------------------------------------------- the route

  lemma RouteLeIsTotal()
    ensures Total(RouteLe()) && Transitive(RouteLe())
  {
    forall x, y ensures RouteLe()(x, y) || RouteLe()(y, x) { TextLeTotal(x.uid, y.uid); }
    forall x, y, z | RouteLe()(x, y) && RouteLe()(y, z) ensures RouteLe()(x, z) {
      if TextLe(x.uid, y.uid) && TextLe(y.uid, z.uid) { TextLeTransitive(x.uid, y.uid, z.uid); }
    }
  }

  /**
   The two ways the orders part: an unknown kind against an adopted one of the same
   date with a smaller uid, and a missing date against a real 9999-12-31.
   */
  predicate Disagree(x: Version, y: Version) {
    || (x.deposited == y.deposited && x.kind == Some(Adopted) && y.kind.None? && !TextLe(x.uid, y.uid))
    || (x.deposited.None? && y.deposited == Some(DATE_MAX)
        && (ProjectedRank(x.kind) < ProjectedRank(y.kind) || (x.kind == y.kind && TextLe(x.uid, y.uid))))
  }

  /** Dates come from a calendar that ends at date.max. */
  ghost predicate Calendar(vs: seq<Version>) {
    forall v :: v in vs && v.deposited.Some? ==> v.deposited.value <= DATE_MAX
  }

  lemma OrdersPartExactlyThere(x: Version, y: Version)
    requires Calendar([x, y])
    ensures NavetteLe()(x, y) && !RouteLe()(x, y) <==> Disagree(x, y)
  {
    assert x in [x, y] && y in [x, y];
  }

  lemma SortedBothWays(s: seq<Version>, x: Version, y: Version)
    requires x in s && y in s && x != y && AntiSymmetricOn(s, NavetteLe())
    requires Sorted(s, NavetteLe()) && Sorted(s, RouteLe())
    ensures NavetteLe()(x, y) ==> RouteLe()(x, y)
  {
    var i :| 0 <= i < |s| && s[i] == x;
    var j :| 0 <= j < |s| && s[j] == y;
    if j < i { assert NavetteLe()(y, x); }
  }

  /** On the versions of a dossier, route and projection give one order iff no pair disagrees. */
  lemma RouteIsProjectionIff(vs: seq<Version>)
    requires Sorted(vs, UidLe()) && DistinctUids(vs) && Calendar(vs)
    ensures Sort(vs, RouteLe()) == Sort(vs, KeyLe()) <==> forall x, y :: x in vs && y in vs ==> !Disagree(x, y)
  {
    var route, projected := Sort(vs, RouteLe()), Sort(vs, KeyLe());
    RouteLeIsTotal();
    SortSorts(vs, RouteLe());
    SortKeeps(vs, RouteLe());
    SortKeeps(vs, KeyLe());
    StableSortIsNavetteOrder(vs);
    forall v ensures (v in projected <==> v in vs) { SortMembers(vs, KeyLe(), v); }
    NavetteLeSeparates(vs);
    if forall x, y :: x in vs && y in vs ==> !Disagree(x, y) {
      forall i, j | 0 <= i < j < |projected| ensures RouteLe()(projected[i], projected[j]) {
        assert projected[i] in projected && projected[j] in projected;
        OrdersPartExactlyThere(projected[i], projected[j]);
      }
      SortedIsUnique(projected, route, RouteLe());
    }
    if route == projected {
      forall x, y | x in vs && y in vs ensures !Disagree(x, y) {
        OrdersPartExactlyThere(x, y);
        if x != y { SortedBothWays(projected, x, y); }
      }
    }
  }

  /** Position of a version in the numbering of its dossier, from 1. */
  ghost predicate HasPosition(vs: seq<Version>, v: Version, position: int) {
    1 <= position <= |Sort(vs, KeyLe())| && Sort(vs, KeyLe())[position - 1] == v
  }

  /** Positions are the order of the navette. */
  lemma PositionsFollowNavette(vs: seq<Version>, x: Version, y: Version, p: int, q: int)
    requires Sorted(vs, UidLe()) && DistinctUids(vs) && x in vs && y in vs && x != y
    requires HasPosition(vs, x, p) && HasPosition(vs, y, q)
    ensures p < q <==> NavetteLe()(x, y)
  {
    StableSortIsNavetteOrder(vs);
    NavetteLeSeparates(vs);
    NavetteLeIsTotal();
    var sorted := Sort(vs, KeyLe());
    assert p < q ==> NavetteLe()(sorted[p - 1], sorted[q - 1]);
    assert q < p ==> NavetteLe()(sorted[q - 1], sorted[p - 1]);
  }

  /** With known kinds and no date.max, an earlier position is strictly before in the route's order. */
  lemma EarlierPositionComesFirst(vs: seq<Version>, x: Version, y: Version, p: int, q: int)
    requires Sorted(vs, UidLe()) && DistinctUids(vs) && Calendar(vs)
    requires forall v :: v in vs ==> v.kind.Some? && v.deposited != Some(DATE_MAX)
    requires x in vs && y in vs && HasPosition(vs, x, p) && HasPosition(vs, y, q) && p < q
    ensures RouteLe()(x, y) && !RouteLe()(y, x)
  {
    StableSortIsNavetteOrder(vs);
    NavetteLeSeparates(vs);
    OrdersPartExactlyThere(x, y);
    SortDistinct(vs, KeyLe());
    assert NavetteLe()(x, y) && x != y;
  }

  /** So the route lists versions in non-decreasing position. */
  lemma RouteFollowsPositions(vs: seq<Version>, shown: seq<Version>, i: nat, j: nat, p: int, q: int)
    requires Sorted(vs, UidLe()) && DistinctUids(vs) && Calendar(vs)
    requires forall v :: v in vs ==> v.kind.Some? && v.deposited != Some(DATE_MAX)
    requires Sorted(shown, RouteLe()) && (forall v :: v in shown ==> v in vs)
    requires i <= j < |shown| && HasPosition(vs, shown[i], p) && HasPosition(vs, shown[j], q)
    ensures p <= q
  {
    assert shown[i] in shown && shown[j] in shown;
    if q < p {
      EarlierPositionComesFirst(vs, shown[j], shown[i], q, p);
    }
  }
}

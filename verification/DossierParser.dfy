/** From a tree of nested acts to the stages of a dossier. */
module DossierParser {
  import opened Prelude
  import opened Sorting
  import opened LawEntities

  /** One acteLegislatif; a missing text attribute is "". */
  datatype Acte = Acte(
    uid: string, code: string, wording: string, organe: Option<string>, date: Option<int>,
    conclusion: Option<string>, famCode: Option<string>,
    texteAssocie: Option<string>, texteAdopte: Option<string>, textes: seq<TexteAssocie>,
    reunion: string, children: seq<Acte>)

  datatype TexteAssocie = TexteAssocie(kind: string, ref: Option<string>)

  /** The acte itself, then every nested acte, depth first. */
  function Walk(a: Acte): seq<Acte> { [a] + WalkAll(a.children) }

  function WalkAll(actes: seq<Acte>): seq<Acte> {
    if actes == [] then [] else Walk(actes[0]) + WalkAll(actes[1..])
  }

  // ---------------------------------------------------------------- acts by their paths

  /** Child positions from the top of a forest down to an act. */
  type Path = seq<nat>

  predicate IsPath(actes: seq<Acte>, path: Path)
    decreases |path|
  {
    path != [] && path[0] < |actes| && (|path| == 1 || IsPath(actes[path[0]].children, path[1..]))
  }

  function ActeAt(actes: seq<Acte>, path: Path): Acte
    requires IsPath(actes, path)
    decreases |path|
  {
    if |path| == 1 then actes[path[0]] else ActeAt(actes[path[0]].children, path[1..])
  }

  /** Document order: an act before what it holds, then by position. */
  predicate Precedes(p: Path, q: Path) {
    q != [] && (p == [] || p[0] < q[0] || (p[0] == q[0] && Precedes(p[1..], q[1..])))
  }

  /** The paths of a forest, all of them, in document order. */
  ghost predicate Lists(paths: seq<Path>, actes: seq<Acte>) {
    && (forall k :: 0 <= k < |paths| ==> IsPath(actes, paths[k]))
    && (forall j, k :: 0 <= j < k < |paths| ==> Precedes(paths[j], paths[k]))
    && (forall path :: IsPath(actes, path) ==> path in paths)
  }

  function ActesAt(actes: seq<Acte>, paths: seq<Path>): seq<Acte>
    requires forall k :: 0 <= k < |paths| ==> IsPath(actes, paths[k])
  {
    seq(|paths|, k requires 0 <= k < |paths| => ActeAt(actes, paths[k]))
  }

  lemma {:induction false} PrecedesTotal(p: Path, q: Path)
    ensures Precedes(p, q) || p == q || Precedes(q, p)
    ensures !(Precedes(p, q) && Precedes(q, p))
  {
    if p == [] || q == [] {
    } else {
      PrecedesTotal(p[1..], q[1..]);
      assert p == [p[0]] + p[1..] && q == [q[0]] + q[1..];
    }
  }

  lemma {:induction false} WalkAllSnoc(actes: seq<Acte>, last: Acte)
    ensures WalkAll(actes + [last]) == WalkAll(actes) + Walk(last)
  {
    if actes == [] {
      assert [last][1..] == [] && actes + [last] == [last];
    } else {
      assert (actes + [last])[1..] == actes[1..] + [last];
      WalkAllSnoc(actes[1..], last);
    }
  }

  function Under(n: nat, paths: seq<Path>): seq<Path> { seq(|paths|, k requires 0 <= k < |paths| => [n] + paths[k]) }

  function PathsOf(actes: seq<Acte>): seq<Path> {
    if actes == [] then []
    else
      var n := |actes| - 1;
      PathsOf(actes[..n]) + [[n]] + Under(n, PathsOf(actes[n].children))
  }

  lemma PathInFront(actes: seq<Acte>, path: Path)
    requires actes != []
    ensures var init := actes[..|actes| - 1];
            && (IsPath(init, path) <==> IsPath(actes, path) && path[0] < |actes| - 1)
            && (IsPath(init, path) ==> ActeAt(init, path) == ActeAt(actes, path))
  {
  }

  lemma PathUnder(actes: seq<Acte>, n: nat, path: Path)
    requires n < |actes|
    ensures IsPath(actes, [n]) && ActeAt(actes, [n]) == actes[n]
    ensures path != [] ==> (IsPath(actes, [n] + path) <==> IsPath(actes[n].children, path))
    ensures IsPath(actes[n].children, path) ==> ActeAt(actes, [n] + path) == ActeAt(actes[n].children, path)
  {
    assert ([n] + path)[1..] == path;
  }

  /** The acts nested in a forest are those at its paths, in document order. */
  lemma {:induction false} WalkFollowsPaths(actes: seq<Acte>)
    ensures |WalkAll(actes)| == |PathsOf(actes)|
    ensures forall k :: 0 <= k < |PathsOf(actes)| ==> IsPath(actes, PathsOf(actes)[k]) && ActeAt(actes, PathsOf(actes)[k]) == WalkAll(actes)[k]
  {
    if actes == [] {
    } else {
      var n := |actes| - 1;
      var init, below := actes[..n], actes[n].children;
      WalkFollowsPaths(init);
      WalkFollowsPaths(below);
      WalkAllSnoc(init, actes[n]);
      assert actes == init + [actes[n]];
      forall k | 0 <= k < |PathsOf(actes)|
        ensures IsPath(actes, PathsOf(actes)[k]) && ActeAt(actes, PathsOf(actes)[k]) == WalkAll(actes)[k]
      {
        var i := |PathsOf(init)|;
        if k < i {
          PathInFront(actes, PathsOf(init)[k]);
        } else if k == i {
          PathUnder(actes, n, []);
        } else {
          PathUnder(actes, n, PathsOf(below)[k - i - 1]);
        }
      }
    }
  }

  lemma {:induction false} EveryPathIsListed(actes: seq<Acte>, path: Path)
    requires IsPath(actes, path)
    ensures path in PathsOf(actes)
  {
    var n := |actes| - 1;
    if path[0] < n {
      PathInFront(actes, path);
      EveryPathIsListed(actes[..n], path);
    } else if |path| == 1 {
      assert path == [n];
    } else {
      var below := PathsOf(actes[n].children);
      EveryPathIsListed(actes[n].children, path[1..]);
      var k :| 0 <= k < |below| && below[k] == path[1..];
      assert Under(n, below)[k] == path;
    }
  }

  lemma {:induction false} PathsAscend(actes: seq<Acte>)
    ensures forall j, k :: 0 <= j < k < |PathsOf(actes)| ==> Precedes(PathsOf(actes)[j], PathsOf(actes)[k])
  {
    if actes == [] {
    } else {
      var n := |actes| - 1;
      var init, below := PathsOf(actes[..n]), PathsOf(actes[n].children);
      PathsAscend(actes[..n]);
      PathsAscend(actes[n].children);
      WalkFollowsPaths(actes[..n]);
      WalkFollowsPaths(actes[n].children);
      var ps := PathsOf(actes);
      forall j, k | 0 <= j < k < |ps| ensures Precedes(ps[j], ps[k]) {
        if j < |init| {
          assert ps[j] == init[j] && ps[j][0] < n;
          if k >= |init| { assert ps[k][0] == n; }
        } else {
          assert ps[k] == [n] + below[k - |init| - 1] && ps[k][1..] == below[k - |init| - 1];
          if j > |init| { assert ps[j] == [n] + below[j - |init| - 1] && ps[j][1..] == below[j - |init| - 1]; }
        }
      }
    }
  }

  lemma PathsAreListed(actes: seq<Acte>)
    ensures Lists(PathsOf(actes), actes)
  {
    WalkFollowsPaths(actes);
    PathsAscend(actes);
    forall path | IsPath(actes, path) ensures path in PathsOf(actes) { EveryPathIsListed(actes, path); }
  }

  function PathLe(): (Path, Path) -> bool { (p: Path, q: Path) => p == q || Precedes(p, q) }

  /** There is one such list. */
  lemma OneListing(a: seq<Path>, b: seq<Path>, actes: seq<Acte>)
    requires Lists(a, actes) && Lists(b, actes)
    ensures a == b
  {
    forall p: Path, q: Path ensures !(Precedes(p, q) && Precedes(q, p)) { PrecedesTotal(p, q); }
    forall p ensures multiset(a)[p] == multiset(b)[p] {
      DistinctCountsOnce(a, p);
      DistinctCountsOnce(b, p);
    }
    SortedIsUnique(a, b, PathLe());
  }

  /** The walk visits every act of the forest, at whatever depth, once, in document order. */
  lemma WalkIsByPaths(actes: seq<Acte>, paths: seq<Path>)
    requires Lists(paths, actes)
    ensures WalkAll(actes) == ActesAt(actes, paths)
  {
    PathsAreListed(actes);
    OneListing(paths, PathsOf(actes), actes);
    WalkFollowsPaths(actes);
  }

  // ---------------------------------------------------------------- one stage

  /** Promulgation counts as an examination, which the field's own documentation leaves out. */
  predicate IsExamination(a: Acte) {
    EndsWith(a.code, "-REUNION") || EndsWith(a.code, "-RAPPORT") || EndsWith(a.code, "-SEANCE")
    || EndsWith(a.code, "-DEC") || EndsWith(a.code, "PROM-PUB")
  }

  predicate IsDecision(a: Acte) { EndsWith(a.code, "-DEC") || EndsWith(a.code, "PROM-PUB") }

  predicate IsReport(a: Acte) {
    (EndsWith(a.code, "-COM-FOND-RAPPORT") || EndsWith(a.code, "-COM-RAPPORT-AN")) && Truthy(a.texteAdopte)
  }

  predicate IsWithdrawal(a: Acte) { EndsWith(a.code, "-RTRINI") }

  predicate IsDeposit(a: Acte) { EndsWith(a.code, "-DEPOT") }

  function TexteOf(a: Acte): Option<string> { a.texteAssocie }

  function ReportedTexteOf(a: Acte): Option<string> { a.texteAdopte }

  function FamCodeOf(a: Acte): Option<string> { a.famCode }

  function ActeDateOf(a: Acte): Option<int> { a.date }

  function ConclusionOf(a: Acte): Option<string> { a.conclusion }

  /** The first BTA among the texts of a decision. */
  function AdoptedTexte(textes: seq<TexteAssocie>): Option<string> {
    if textes == [] then None else if textes[0].kind == "BTA" then textes[0].ref else AdoptedTexte(textes[1..])
  }

  function AdoptedTexteOf(a: Acte): Option<string> { AdoptedTexte(a.textes) }

  /** next((a for a in actes if keep(a)), None) */
  function First(keep: Acte -> bool, actes: seq<Acte>): (r: Option<Acte>)
    ensures r.Some? ==> r.value in actes && keep(r.value)
    ensures r.None? ==> forall a :: a in actes ==> !keep(a)
  {
    if actes == [] then None else if keep(actes[0]) then Some(actes[0]) else First(keep, actes[1..])
  }

  function DatesOf(keep: Acte -> bool, actes: seq<Acte>): (r: seq<int>)
    ensures forall d :: d in r <==> exists a :: a in actes && keep(a) && a.date == Some(d)
  {
    if actes == [] then []
    else
      var rest := DatesOf(keep, actes[1..]);
      assert forall a :: a in actes <==> a == actes[0] || a in actes[1..];
      if keep(actes[0]) && actes[0].date.Some? then [actes[0].date.value] + rest else rest
  }

  function DateLe(): (int, int) -> bool { (x: int, y: int) => x <= y }

  function Earliest(dates: seq<int>): Option<int> {
    var sorted := Sort(dates, DateLe());
    if sorted == [] then None else Some(sorted[0])
  }

  lemma EarliestIs(dates: seq<int>)
    ensures Earliest(dates).None? <==> dates == []
    ensures Earliest(dates).Some? ==> Earliest(dates).value in dates && forall d :: d in dates ==> Earliest(dates).value <= d
  {
    var sorted := Sort(dates, DateLe());
    SortKeeps(dates, DateLe());
    SortSorts(dates, DateLe());
    if sorted != [] {
      SortMembers(dates, DateLe(), sorted[0]);
      forall d | d in dates ensures sorted[0] <= d {
        SortMembers(dates, DateLe(), d);
        var k :| 0 <= k < |sorted| && sorted[k] == d;
        assert k > 0 ==> DateLe()(sorted[0], sorted[k]);
      }
    }
  }

  function OrElse(a: string, b: string): string { if a != "" then a else b }

  function Sittings(actes: seq<Acte>): seq<string> {
    if actes == [] then []
    else (if EndsWith(actes[0].code, "-SEANCE") && actes[0].reunion != "" then [actes[0].reunion] else []) + Sittings(actes[1..])
  }

  function ParseStage(acte: Acte, position: int): Stage {
    var nested := WalkAll(acte.children);
    var decision := First(IsDecision, nested);
    var deposit := First(IsDeposit, nested);
    var report := First(IsReport, nested);
    Stage(
      acte.uid, OrElse(acte.code, acte.uid), OrElse(acte.wording, OrElse(acte.code, acte.uid)), acte.organe, position,
      Earliest(DatesOf(IsAny, nested)),
      Earliest(DatesOf(IsExamination, nested)),
      if decision.Some? then decision.value.date else None,
      if decision.Some? then decision.value.conclusion else None,
      if decision.Some? then decision.value.famCode else None,
      if deposit.Some? then deposit.value.texteAssocie else None,
      if report.Some? then report.value.texteAdopte else None,
      if decision.Some? then AdoptedTexte(decision.value.textes) else None,
      Sittings(nested))
  }

  /** What an act counts as. */
  datatype Roles = Roles(examination: bool, decision: bool, report: bool, deposit: bool, withdrawal: bool, seance: bool)

  const NO_ROLE := Roles(false, false, false, false, false, false)

  function RolesOf(a: Acte): Roles {
    Roles(IsExamination(a), IsDecision(a), IsReport(a), IsDeposit(a), IsWithdrawal(a), EndsWith(a.code, "-SEANCE"))
  }

  const ENDINGS := ["-REUNION", "-RAPPORT", "-SEANCE", "-DEC", "PROM-PUB", "-DEPOT", "-RTRINI", "-COM-RAPPORT-AN"]

  lemma OneEnding(code: string, k: nat)
    requires k < |ENDINGS| && EndsWith(code, ENDINGS[k])
    ensures forall j :: 0 <= j < |ENDINGS| && j != k ==> !EndsWith(code, ENDINGS[j])
  {
    forall j | 0 <= j < |ENDINGS| && j != k ensures !EndsWith(code, ENDINGS[j]) {
      assert ENDINGS[k][|ENDINGS[k]| - 2..] != ENDINGS[j][|ENDINGS[j]| - 2..];
      OtherEnding(code, ENDINGS[k], ENDINGS[j]);
    }
  }

  lemma ReportEnding(code: string)
    requires EndsWith(code, "-COM-FOND-RAPPORT")
    ensures EndsWith(code, "-RAPPORT")
  {
    assert code[|code| - 17..][9..] == code[|code| - 8..];
    assert "-COM-FOND-RAPPORT"[9..] == "-RAPPORT";
  }

  /**
   Acts by the ending of their code. The report of a second commission of the Assemblée is a report but
   no examination; the promulgation is an examination and a decision.
   */
  lemma RolesByEnding(a: Acte)
    ensures EndsWith(a.code, "-REUNION") ==> RolesOf(a) == NO_ROLE.(examination := true)
    ensures EndsWith(a.code, "-SEANCE") ==> RolesOf(a) == NO_ROLE.(examination := true, seance := true)
    ensures EndsWith(a.code, "-DEC") || EndsWith(a.code, "PROM-PUB") ==> RolesOf(a) == NO_ROLE.(examination := true, decision := true)
    ensures EndsWith(a.code, "-DEPOT") ==> RolesOf(a) == NO_ROLE.(deposit := true)
    ensures EndsWith(a.code, "-RTRINI") ==> RolesOf(a) == NO_ROLE.(withdrawal := true)
    ensures EndsWith(a.code, "-RAPPORT") ==>
              RolesOf(a) == NO_ROLE.(examination := true, report := EndsWith(a.code, "-COM-FOND-RAPPORT") && Truthy(a.texteAdopte))
    ensures EndsWith(a.code, "-COM-RAPPORT-AN") ==> RolesOf(a) == NO_ROLE.(report := Truthy(a.texteAdopte))
    ensures (forall k :: 0 <= k < |ENDINGS| ==> !EndsWith(a.code, ENDINGS[k])) ==> RolesOf(a) == NO_ROLE
  {
    assert ENDINGS[0] == "-REUNION" && ENDINGS[1] == "-RAPPORT" && ENDINGS[2] == "-SEANCE" && ENDINGS[3] == "-DEC"
        && ENDINGS[4] == "PROM-PUB" && ENDINGS[5] == "-DEPOT" && ENDINGS[6] == "-RTRINI" && ENDINGS[7] == "-COM-RAPPORT-AN";
    forall k | 0 <= k < |ENDINGS| && EndsWith(a.code, ENDINGS[k])
      ensures forall j :: 0 <= j < |ENDINGS| && j != k ==> !EndsWith(a.code, ENDINGS[j])
    {
      OneEnding(a.code, k);
    }
    if EndsWith(a.code, "-COM-FOND-RAPPORT") { ReportEnding(a.code); }
  }

  /** `a` is the first of `actes` that satisfies `keep`. */
  ghost predicate IsFirst(keep: Acte -> bool, actes: seq<Acte>, a: Acte) {
    exists i :: 0 <= i < |actes| && actes[i] == a && keep(a) && forall j :: 0 <= j < i ==> !keep(actes[j])
  }

  lemma {:induction false} FirstIs(keep: Acte -> bool, actes: seq<Acte>)
    ensures First(keep, actes).Some? ==> IsFirst(keep, actes, First(keep, actes).value)
  {
    if actes == [] {
    } else if keep(actes[0]) {
      assert actes[0] == First(keep, actes).value;
    } else {
      FirstIs(keep, actes[1..]);
      if First(keep, actes).Some? {
        var a := First(keep, actes).value;
        var i :| 0 <= i < |actes[1..]| && actes[1..][i] == a && forall j :: 0 <= j < i ==> !keep(actes[1..][j]);
        forall j | 0 <= j < i + 1 ensures !keep(actes[j]) {
          if j > 0 { assert actes[j] == actes[1..][j - 1]; }
        }
        assert actes[i + 1] == a;
      }
    }
  }

  /** The path of the first act, in document order, that satisfies `keep`. */
  ghost predicate IsFirstPath(actes: seq<Acte>, keep: Acte -> bool, path: Path) {
    && IsPath(actes, path) && keep(ActeAt(actes, path))
    && forall q :: IsPath(actes, q) && Precedes(q, path) ==> !keep(ActeAt(actes, q))
  }

  lemma FirstByPath(actes: seq<Acte>, keep: Acte -> bool)
    ensures First(keep, WalkAll(actes)).None? ==> forall path :: IsPath(actes, path) ==> !keep(ActeAt(actes, path))
    ensures First(keep, WalkAll(actes)).Some? ==>
              exists path :: IsFirstPath(actes, keep, path) && ActeAt(actes, path) == First(keep, WalkAll(actes)).value
  {
    var paths, walked := PathsOf(actes), WalkAll(actes);
    PathsAreListed(actes);
    WalkFollowsPaths(actes);
    FirstIs(keep, walked);
    if First(keep, walked).None? {
      forall path | IsPath(actes, path) ensures !keep(ActeAt(actes, path)) {
        var k :| 0 <= k < |paths| && paths[k] == path;
        assert walked[k] in walked;
      }
    } else {
      var i :| 0 <= i < |walked| && walked[i] == First(keep, walked).value && keep(walked[i]) && forall j :: 0 <= j < i ==> !keep(walked[j]);
      forall q | IsPath(actes, q) && Precedes(q, paths[i]) ensures !keep(ActeAt(actes, q)) {
        var j :| 0 <= j < |paths| && paths[j] == q;
        PrecedesTotal(q, paths[i]);
        assert !(i < j) && i != j;
      }
      assert IsFirstPath(actes, keep, paths[i]);
    }
  }

  lemma OneFirstPath(actes: seq<Acte>, keep: Acte -> bool, p: Path, q: Path)
    requires IsFirstPath(actes, keep, p) && IsFirstPath(actes, keep, q)
    ensures p == q
  {
    PrecedesTotal(p, q);
  }

  /** `value` is what the first act that satisfies `keep` says, at whatever depth, and None when there is no such act. */
  ghost predicate FirstSays<T(!new)>(actes: seq<Acte>, keep: Acte -> bool, says: Acte -> Option<T>, value: Option<T>) {
    && (forall path :: IsFirstPath(actes, keep, path) ==> value == says(ActeAt(actes, path)))
    && ((exists path :: IsFirstPath(actes, keep, path)) <==> exists path :: IsPath(actes, path) && keep(ActeAt(actes, path)))
    && ((forall path :: IsPath(actes, path) ==> !keep(ActeAt(actes, path))) ==> value.None?)
  }

  lemma FirstSaysIt<T(!new)>(actes: seq<Acte>, keep: Acte -> bool, says: Acte -> Option<T>)
    ensures FirstSays(actes, keep, says, if First(keep, WalkAll(actes)).Some? then says(First(keep, WalkAll(actes)).value) else None)
  {
    FirstByPath(actes, keep);
    if First(keep, WalkAll(actes)).Some? {
      var first :| IsFirstPath(actes, keep, first) && ActeAt(actes, first) == First(keep, WalkAll(actes)).value;
      forall path | IsFirstPath(actes, keep, path) ensures path == first { OneFirstPath(actes, keep, path, first); }
    }
  }

  lemma {:induction false} AdoptedTexteIs(textes: seq<TexteAssocie>, k: nat)
    requires k < |textes| && textes[k].kind == "BTA" && forall j :: 0 <= j < k ==> textes[j].kind != "BTA"
    ensures AdoptedTexte(textes) == textes[k].ref
  {
    if k == 0 {
    } else {
      assert textes[0].kind != "BTA";
      AdoptedTexteIs(textes[1..], k - 1);
    }
  }

  lemma {:induction false} NoAdoptedTexte(textes: seq<TexteAssocie>)
    requires forall t :: t in textes ==> t.kind != "BTA"
    ensures AdoptedTexte(textes).None?
  {
    if textes == [] {
    } else {
      assert textes[0] in textes;
      NoAdoptedTexte(textes[1..]);
    }
  }

  /**
   Each text, the decision, its date and its label are what the first nested act that should
   give them says, at any depth, or nothing.
   */
  lemma StageReadsItsActs(acte: Acte, position: int)
    ensures var s, below := ParseStage(acte, position), acte.children;
            && FirstSays(below, IsDeposit, TexteOf, s.texteUid)
            && FirstSays(below, IsReport, ReportedTexteOf, s.commissionTexteUid)
            && FirstSays(below, IsDecision, AdoptedTexteOf, s.adoptedTexteUid)
            && FirstSays(below, IsDecision, FamCodeOf, s.decisionCode)
            && FirstSays(below, IsDecision, ActeDateOf, s.concludedAt)
            && FirstSays(below, IsDecision, ConclusionOf, s.decision)
  {
    FirstSaysIt(acte.children, IsDeposit, TexteOf);
    FirstSaysIt(acte.children, IsReport, ReportedTexteOf);
    FirstSaysIt(acte.children, IsDecision, AdoptedTexteOf);
    FirstSaysIt(acte.children, IsDecision, FamCodeOf);
    FirstSaysIt(acte.children, IsDecision, ActeDateOf);
    FirstSaysIt(acte.children, IsDecision, ConclusionOf);
  }

  /** The sitting of a séance act. */
  function SeanceOf(): Acte -> Option<string> {
    (a: Acte) => if EndsWith(a.code, "-SEANCE") && a.reunion != "" then Some(a.reunion) else None
  }

  lemma {:induction false} SittingsAre(actes: seq<Acte>)
    ensures Sittings(actes) == FilterMap(SeanceOf(), actes)
  {
    if actes == [] {
    } else {
      SittingsAre(actes[1..]);
      FilterMapCons(SeanceOf(), actes);
    }
  }

  /** The sittings of a stage are those of its séance acts, in document order. */
  lemma StageSitsAtItsActs(acte: Acte, position: int, paths: seq<Path>)
    requires Lists(paths, acte.children)
    ensures ParseStage(acte, position).sittings == FilterMap(SeanceOf(), ActesAt(acte.children, paths))
  {
    WalkIsByPaths(acte.children, paths);
    SittingsAre(WalkAll(acte.children));
  }

  /** A stage is named by its act: the code by default its uid, the wording by default that code. */
  lemma StageIsItsActe(acte: Acte, position: int)
    ensures var s := ParseStage(acte, position);
            && s.uid == acte.uid && s.organe == acte.organe && s.order == position
            && (acte.code != "" ==> s.code == acte.code) && (acte.code == "" ==> s.code == acte.uid)
            && (acte.wording != "" ==> s.wording == acte.wording) && (acte.wording == "" ==> s.wording == s.code)
  {
  }

  /** Top-level acts with a uid, each with its rank among all top-level acts. */
  function ParseStages(actes: seq<Acte>): seq<Stage> {
    if actes == [] then []
    else
      var before, last := ParseStages(actes[..|actes| - 1]), actes[|actes| - 1];
      if last.uid != "" then before + [ParseStage(last, |actes|)] else before
  }

  datatype RawDossier = RawDossier(
    uid: string, legislature: int, title: string, senateUrl: Option<string>, procedureCode: string,
    procedureLabel: Option<string>, initiators: seq<string>, actes: seq<Acte>)

  function NonEmpty(ss: seq<string>): seq<string> {
    if ss == [] then [] else (if ss[0] != "" then [ss[0]] else []) + NonEmpty(ss[1..])
  }

  function ParseDossier(d: RawDossier, textes: map<string, seq<Texte>>): Option<Law> {
    if d.uid == "" then None
    else Some(Law(
      d.uid, d.legislature, OrElse(d.title, d.uid), d.senateUrl, OrElse(d.procedureCode, "0"), d.procedureLabel,
      NonEmpty(d.initiators),
      First(IsWithdrawal, WalkAll(d.actes)).Some?,
      ParseStages(d.actes), if d.uid in textes then textes[d.uid] else [], None))
  }

  /** A top-level act with a uid is a stage, at its rank among all of them. */
  lemma {:induction false} ActIsAStage(actes: seq<Acte>, i: nat)
    requires i < |actes| && actes[i].uid != ""
    ensures ParseStage(actes[i], i + 1) in ParseStages(actes)
  {
    var n := |actes| - 1;
    var before := ParseStages(actes[..n]);
    if i < n {
      assert actes[..n][i] == actes[i];
      ActIsAStage(actes[..n], i);
    } else {
      var last := ParseStage(actes[i], i + 1);
      assert ParseStages(actes) == before + [last];
      assert (before + [last])[|before|] == last;
    }
  }

  /** And every stage is such an act. */
  lemma {:induction false} StageIsAnAct(actes: seq<Acte>, s: Stage)
    requires s in ParseStages(actes)
    ensures 0 < s.order <= |actes| && actes[s.order - 1].uid != "" && s == ParseStage(actes[s.order - 1], s.order)
  {
    var n := |actes| - 1;
    if s in ParseStages(actes[..n]) {
      StageIsAnAct(actes[..n], s);
      assert actes[..n][s.order - 1] == actes[s.order - 1];
    } else {
      assert s == ParseStage(actes[n], n + 1);
    }
  }

  lemma {:induction false} NonEmptyAre(ss: seq<string>, x: string)
    ensures x in NonEmpty(ss) <==> x in ss && x != ""
  {
    if ss == [] {
    } else {
      NonEmptyAre(ss[1..], x);
    }
  }

  /** A dossier is parsed iff it has a uid; it is withdrawn iff some act, at whatever depth, says so. */
  lemma DossierReadsItsFields(d: RawDossier, textes: map<string, seq<Texte>>)
    ensures ParseDossier(d, textes).Some? <==> d.uid != ""
    ensures ParseDossier(d, textes).Some? ==>
              var l := ParseDossier(d, textes).value;
              && l.dossierUid == d.uid && l.legislature == d.legislature && l.senateUrl == d.senateUrl && l.procedureLabel == d.procedureLabel
              && (l.withdrawn <==> exists path :: IsPath(d.actes, path) && EndsWith(ActeAt(d.actes, path).code, "-RTRINI"))
              && (d.title != "" ==> l.title == d.title) && (d.title == "" ==> l.title == d.uid)
              && (d.procedureCode != "" ==> l.procedureCode == d.procedureCode) && (d.procedureCode == "" ==> l.procedureCode == "0")
              && (forall u :: u in l.initiators <==> u in d.initiators && u != "")
              && l.textes == if d.uid in textes then textes[d.uid] else []
  {
    if d.uid != "" {
      forall u ensures u in NonEmpty(d.initiators) <==> u in d.initiators && u != "" { NonEmptyAre(d.initiators, u); }
      FirstByPath(d.actes, IsWithdrawal);
    }
  }

  // ---------------------------------------------------------------- dates of a stage

  /** Concluded means examined, examined means started, and in that order. */
  ghost predicate DatesInOrder(s: Stage) {
    && (s.concludedAt.Some? ==> s.examinedAt.Some? && s.examinedAt.value <= s.concludedAt.value)
    && (s.examinedAt.Some? ==> s.startedAt.Some? && s.startedAt.value <= s.examinedAt.value)
  }

  lemma ActsAreAtPaths(actes: seq<Acte>, a: Acte)
    ensures a in WalkAll(actes) <==> exists path :: IsPath(actes, path) && ActeAt(actes, path) == a
  {
    PathsAreListed(actes);
    WalkFollowsPaths(actes);
    var paths, walked := PathsOf(actes), WalkAll(actes);
    if a in walked {
      var k :| 0 <= k < |walked| && walked[k] == a;
      assert IsPath(actes, paths[k]) && ActeAt(actes, paths[k]) == a;
    }
    if path :| IsPath(actes, path) && ActeAt(actes, path) == a {
      var k :| 0 <= k < |paths| && paths[k] == path;
      assert walked[k] == a && walked[k] in walked;
    }
  }

  /** `date` is the earliest date of an act that satisfies `keep`, at whatever depth; None when none has a date. */
  ghost predicate IsEarliest(actes: seq<Acte>, keep: Acte -> bool, date: Option<int>) {
    && (forall path :: IsPath(actes, path) && keep(ActeAt(actes, path)) && ActeAt(actes, path).date.Some? ==>
          date.Some? && date.value <= ActeAt(actes, path).date.value)
    && (date.Some? ==> exists path :: IsPath(actes, path) && keep(ActeAt(actes, path)) && ActeAt(actes, path).date == date)
  }

  ghost predicate NoneDated(actes: seq<Acte>, keep: Acte -> bool) {
    forall path :: IsPath(actes, path) && keep(ActeAt(actes, path)) ==> ActeAt(actes, path).date.None?
  }

  lemma NoEarliest(actes: seq<Acte>, keep: Acte -> bool, date: Option<int>)
    requires IsEarliest(actes, keep, date)
    ensures date.None? <==> NoneDated(actes, keep)
  {
    if date.Some? {
      var path :| IsPath(actes, path) && keep(ActeAt(actes, path)) && ActeAt(actes, path).date == date;
    } else {
      forall path | IsPath(actes, path) && keep(ActeAt(actes, path)) ensures ActeAt(actes, path).date.None? { }
    }
  }

  lemma EarliestByPath(actes: seq<Acte>, keep: Acte -> bool)
    ensures IsEarliest(actes, keep, Earliest(DatesOf(keep, WalkAll(actes))))
  {
    var dates := DatesOf(keep, WalkAll(actes));
    EarliestIs(dates);
    forall path | IsPath(actes, path) && keep(ActeAt(actes, path)) && ActeAt(actes, path).date.Some?
      ensures ActeAt(actes, path).date.value in dates
    {
      ActsAreAtPaths(actes, ActeAt(actes, path));
    }
    if Earliest(dates).Some? {
      assert Earliest(dates).value in dates;
      var a :| a in WalkAll(actes) && keep(a) && a.date == Earliest(dates);
      ActsAreAtPaths(actes, a);
    }
  }

  predicate IsAny(a: Acte) { true }

  /** The start is the earliest date of any nested act, the examination that of the examining ones. */
  lemma StageDatesAreEarliest(acte: Acte, position: int)
    ensures var s := ParseStage(acte, position);
            IsEarliest(acte.children, IsAny, s.startedAt) && IsEarliest(acte.children, IsExamination, s.examinedAt)
  {
    EarliestByPath(acte.children, IsAny);
    EarliestByPath(acte.children, IsExamination);
  }

  lemma StageDatesInOrder(acte: Acte, position: int)
    ensures DatesInOrder(ParseStage(acte, position))
  {
    var nested := WalkAll(acte.children);
    var all := DatesOf(IsAny, nested);
    var examined := DatesOf(IsExamination, nested);
    EarliestIs(all);
    EarliestIs(examined);
    var decision := First(IsDecision, nested);
    if decision.Some? && decision.value.date.Some? {
      assert IsExamination(decision.value);
      assert decision.value.date.value in examined;
    }
    if Earliest(examined).Some? {
      assert Earliest(examined).value in examined;
      var a :| a in nested && IsExamination(a) && a.date == Earliest(examined);
      assert Earliest(examined).value in all;
    }
  }

  lemma {:induction false} EveryStageInOrder(actes: seq<Acte>)
    ensures forall i :: 0 <= i < |ParseStages(actes)| ==> DatesInOrder(ParseStages(actes)[i])
  {
    if actes == [] {
    } else {
      EveryStageInOrder(actes[..|actes| - 1]);
      StageDatesInOrder(actes[|actes| - 1], |actes|);
    }
  }

  /** Skipped acts leave holes, but positions only ever grow. */
  ghost predicate Growing(stages: seq<Stage>, bound: int) {
    && (forall i, j :: 0 <= i < j < |stages| ==> stages[i].order < stages[j].order)
    && (forall i :: 0 <= i < |stages| ==> stages[i].order <= bound)
  }

  lemma {:induction false} PositionsGrow(actes: seq<Acte>)
    ensures Growing(ParseStages(actes), |actes|)
  {
    if actes == [] {
    } else {
      var init, last := actes[..|actes| - 1], actes[|actes| - 1];
      PositionsGrow(init);
      assert last.uid != "" ==> ParseStages(actes) == ParseStages(init) + [ParseStage(last, |actes|)];
      assert ParseStage(last, |actes|).order == |actes|;
    }
  }

  /** A parsed dossier with any concluded stage is past `submitted`. */
  lemma ConcludedLawIsNotSubmitted(d: RawDossier, textes: map<string, seq<Texte>>, i: nat)
    requires ParseDossier(d, textes).Some?
    requires i < |ParseDossier(d, textes).value.stages| && ParseDossier(d, textes).value.stages[i].concludedAt.Some?
    ensures Status(ParseDossier(d, textes).value) != Submitted
  {
    EveryStageInOrder(d.actes);
    assert ParseDossier(d, textes).value.stages[i].examinedAt.Some?;
  }

  // ---------------------------------------------------------------- the two statuses of a reading

  /** The reading shows an outcome. */
  predicate Settled(s: Stage) { ReadingStatus(s) == AdoptedLaw || ReadingStatus(s) == RejectedLaw }

  lemma SettledIff(s: Stage)
    ensures Settled(s) <==> Truthy(s.decisionCode)
  {
    assert "" !in REJECTED_CODES;
  }

  /** The deciding act of a stage: its first decision, at whatever depth. */
  ghost predicate Decides(acte: Acte, path: Path) { IsFirstPath(acte.children, IsDecision, path) }

  lemma DecisionIs(acte: Acte, position: int)
    ensures var s := ParseStage(acte, position);
            && (forall path :: Decides(acte, path) ==>
                  s.decisionCode == ActeAt(acte.children, path).famCode && s.concludedAt == ActeAt(acte.children, path).date)
            && ((forall path :: !Decides(acte, path)) ==> s.decisionCode.None? && s.concludedAt.None?)
  {
    var below := acte.children;
    FirstByPath(below, IsDecision);
    if First(IsDecision, WalkAll(below)).Some? {
      var first :| IsFirstPath(below, IsDecision, first) && ActeAt(below, first) == First(IsDecision, WalkAll(below)).value;
      assert Decides(acte, first);
      forall path | Decides(acte, path) ensures path == first { OneFirstPath(below, IsDecision, path, first); }
    } else {
      forall path ensures !Decides(acte, path) { }
    }
  }

  /**
   Outcome and calendar go together exactly when the deciding act, if there is one, has both
   an outcome code and a readable date, or neither.
   */
  lemma OutcomeMeetsCalendarIff(acte: Acte, position: int)
    ensures var s := ParseStage(acte, position);
            (Settled(s) <==> ReadingCalendar(s) == Completed)
            <==> forall path :: Decides(acte, path) ==>
                   (Truthy(ActeAt(acte.children, path).famCode) <==> ActeAt(acte.children, path).date.Some?)
  {
    SettledIff(ParseStage(acte, position));
    DecisionIs(acte, position);
  }

  /** An outcome with a calendar that says `scheduled`: a coded decision, and no examining act has a date. */
  lemma OutcomeYetScheduledIff(acte: Acte, position: int)
    ensures var s, below := ParseStage(acte, position), acte.children;
            (Settled(s) && ReadingCalendar(s) == Scheduled)
            <==> ((exists path :: Decides(acte, path) && Truthy(ActeAt(below, path).famCode))
                  && NoneDated(below, IsExamination))
  {
    SettledIff(ParseStage(acte, position));
    DecisionIs(acte, position);
    StageDatesInOrder(acte, position);
    StageDatesAreEarliest(acte, position);
    NoEarliest(acte.children, IsExamination, ParseStage(acte, position).examinedAt);
  }

  /** Without an outcome the two never contradict each other but for a dated decision that has no code. */
  lemma OpenReadingCalendar(acte: Acte, position: int)
    ensures var s := ParseStage(acte, position);
            var dated := exists path :: Decides(acte, path) && ActeAt(acte.children, path).date.Some?;
            && (ReadingStatus(s) == Submitted ==> ReadingCalendar(s) == Scheduled)
            && (ReadingStatus(s) == InDiscussion ==> ReadingCalendar(s) == if dated then Completed else Ongoing)
  {
    DecisionIs(acte, position);
    StageDatesInOrder(acte, position);
  }

  function Decision(date: Option<int>, famCode: Option<string>): Acte {
    Acte("D", "AN1-DEC", "", None, date, None, famCode, None, None, [], "", [])
  }

  function FirstReading(decision: Acte): Acte {
    Acte("S", "AN1", "", None, None, None, None, None, None, [], "", [decision])
  }

  lemma OnlyDecision(decision: Acte)
    requires IsDecision(decision) && decision.children == []
    ensures Decides(FirstReading(decision), [0]) && ActeAt([decision], [0]) == decision
    ensures forall path :: IsPath([decision], path) ==> path == [0]
  {
    forall path: Path | IsPath([decision], path) ensures path == [0] {
      assert |path| > 1 ==> !IsPath(decision.children, path[1..]);
    }
    assert IsPath([decision], [0]) && !Precedes([0], [0]);
  }

  /** A coded decision without a readable date: adopted, yet scheduled. */
  lemma AdoptedYetScheduled()
    ensures var s := ParseStage(FirstReading(Decision(None, Some("TSORTF01"))), 1);
            ReadingStatus(s) == AdoptedLaw && ReadingCalendar(s) == Scheduled
  {
    var d := Decision(None, Some("TSORTF01"));
    assert EndsWith(d.code, "-DEC");
    OnlyDecision(d);
    OutcomeYetScheduledIff(FirstReading(d), 1);
  }

  /** A dated decision without a code: in discussion, yet completed. */
  lemma CompletedYetInDiscussion(day: int)
    ensures var s := ParseStage(FirstReading(Decision(Some(day), None)), 1);
            ReadingStatus(s) == InDiscussion && ReadingCalendar(s) == Completed
  {
    var d := Decision(Some(day), None);
    assert EndsWith(d.code, "-DEC");
    OnlyDecision(d);
    DecisionIs(FirstReading(d), 1);
    OpenReadingCalendar(FirstReading(d), 1);
    StageDatesInOrder(FirstReading(d), 1);
  }
}

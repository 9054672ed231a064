/** A dossier written to raw rows and rebuilt from them for the projection. */
module LawRoundTrip {
  import opened Prelude
  import opened Sorting
  import opened LawEntities
  import opened DossierParser

  datatype LawRow = LawRow(
    dossierUid: string, legislature: int, title: string, senateUrl: Option<string>, procedureCode: string,
    procedureLabel: Option<string>, initiators: seq<string>, withdrawn: bool, s3Key: Option<string>)

  datatype StageRow = StageRow(
    stageUid: string, dossierUid: string, code: string, wording: string, organe: Option<string>, position: int,
    startedAt: Option<int>, examinedAt: Option<int>, concludedAt: Option<int>,
    decision: Option<string>, decisionCode: Option<string>,
    texteUid: Option<string>, commissionTexteUid: Option<string>, adoptedTexteUid: Option<string>,
    sittings: seq<string>)

  datatype TexteRow = TexteRow(
    uid: string, dossierUid: string, legislature: int, kind: Option<string>, number: Option<int>,
    depositedAt: Option<int>, content: string)

  /** raw.law, raw.law_stage and raw.law_texte by natural key. */
  datatype Tables = Tables(laws: map<string, LawRow>, stages: map<string, StageRow>, textes: map<string, TexteRow>)

  // ---------------------------------------------------------------- printing

  function PrintLaw(l: Law, s3Key: Option<string>): LawRow {
    LawRow(l.dossierUid, l.legislature, l.title, l.senateUrl, l.procedureCode, l.procedureLabel, l.initiators, l.withdrawn, s3Key)
  }

  function PrintStage(s: Stage, dossierUid: string): StageRow {
    StageRow(s.uid, dossierUid, s.code, s.wording, s.organe, s.order, s.startedAt, s.examinedAt, s.concludedAt,
             s.decision, s.decisionCode, s.texteUid, s.commissionTexteUid, s.adoptedTexteUid, s.sittings)
  }

  function PrintTexte(t: Texte): TexteRow {
    TexteRow(t.uid, t.dossierUid, t.legislature, t.kind, t.number, t.depositedAt, t.content)
  }

  function PutStages(m: map<string, StageRow>, stages: seq<Stage>, dossierUid: string): map<string, StageRow> {
    if stages == [] then m
    else PutStages(m, stages[..|stages| - 1], dossierUid)[stages[|stages| - 1].uid := PrintStage(stages[|stages| - 1], dossierUid)]
  }

  function PutTextes(m: map<string, TexteRow>, textes: seq<Texte>): map<string, TexteRow> {
    if textes == [] then m
    else PutTextes(m, textes[..|textes| - 1])[textes[|textes| - 1].uid := PrintTexte(textes[|textes| - 1])]
  }

  ghost predicate DistinctStages(l: Law) {
    forall i, j :: 0 <= i < j < |l.stages| ==> l.stages[i].uid != l.stages[j].uid
  }

  ghost predicate DistinctTextes(l: Law) {
    forall i, j :: 0 <= i < j < |l.textes| ==> l.textes[i].uid != l.textes[j].uid
  }

  /** The transaction that saves a dossier; repeated stage or text uids abort it. */
  function Saved(t: Tables, l: Law, s3Key: Option<string>): Tables {
    Tables(t.laws[l.dossierUid := PrintLaw(l, s3Key)], PutStages(t.stages, l.stages, l.dossierUid), PutTextes(t.textes, l.textes))
  }

  // ---------------------------------------------------------------- reading back

  function ReadStage(r: StageRow): Stage {
    Stage(r.stageUid, r.code, r.wording, r.organe, r.position, r.startedAt, r.examinedAt, r.concludedAt,
          r.decision, r.decisionCode, r.texteUid, r.commissionTexteUid, r.adoptedTexteUid, r.sittings)
  }

  function ReadTexte(r: TexteRow): Texte {
    Texte(r.uid, r.dossierUid, r.legislature, r.kind, r.number, r.depositedAt, r.content)
  }

  function ReadStages(rows: seq<StageRow>): seq<Stage> {
    seq(|rows|, i requires 0 <= i < |rows| => ReadStage(rows[i]))
  }

  function ReadTextes(rows: seq<TexteRow>): seq<Texte> {
    seq(|rows|, i requires 0 <= i < |rows| => ReadTexte(rows[i]))
  }

  function LawFromRaw(row: LawRow, stages: seq<StageRow>, textes: seq<TexteRow>): Law {
    Law(row.dossierUid, row.legislature, row.title, row.senateUrl, row.procedureCode, row.procedureLabel,
        row.initiators, row.withdrawn, ReadStages(stages), ReadTextes(textes), row.s3Key)
  }

  function ByPosition(): (StageRow, StageRow) -> bool { (x: StageRow, y: StageRow) => x.position <= y.position }

  /** SELECT ... WHERE dossier_uid = d ORDER BY position: each row once, ties in any order. */
  ghost predicate SelectsStages(t: Tables, d: string, rows: seq<StageRow>) {
    && (forall r :: r in rows <==> r.stageUid in t.stages && t.stages[r.stageUid] == r && r.dossierUid == d)
    && (forall i, j :: 0 <= i < j < |rows| ==> rows[i] != rows[j])
    && Sorted(rows, ByPosition())
  }

  /** SELECT ... WHERE dossier_uid = d, without any order. */
  ghost predicate SelectsTextes(t: Tables, d: string, rows: seq<TexteRow>) {
    && (forall r :: r in rows <==> r.uid in t.textes && t.textes[r.uid] == r && r.dossierUid == d)
    && (forall i, j :: 0 <= i < j < |rows| ==> rows[i] != rows[j])
  }

  // ---------------------------------------------------------------- the round trip

  function PrintStages(stages: seq<Stage>, d: string): seq<StageRow> {
    seq(|stages|, i requires 0 <= i < |stages| => PrintStage(stages[i], d))
  }

  lemma {:induction false} PutStagesIs(m: map<string, StageRow>, stages: seq<Stage>, d: string, uid: string)
    requires forall i, j :: 0 <= i < j < |stages| ==> stages[i].uid != stages[j].uid
    ensures uid in PutStages(m, stages, d) <==> uid in m || exists s :: s in stages && s.uid == uid
    ensures forall s :: s in stages && s.uid == uid ==> PutStages(m, stages, d)[uid] == PrintStage(s, d)
    ensures (forall s :: s in stages ==> s.uid != uid) && uid in m ==> PutStages(m, stages, d)[uid] == m[uid]
  {
    if stages == [] {
    } else {
      var init, last := stages[..|stages| - 1], stages[|stages| - 1];
      assert last in stages && forall s :: s in stages <==> s in init || s == last;
      PutStagesIs(m, init, d, uid);
      forall s | s in init ensures s.uid != last.uid {
        var k :| 0 <= k < |init| && init[k] == s;
        assert stages[k].uid != stages[|stages| - 1].uid;
      }
    }
  }

  /** A stage row of the dossier that the law no longer has. */
  ghost predicate Stale(t: Tables, l: Law, uid: string) {
    uid in t.stages && t.stages[uid].dossierUid == l.dossierUid && forall s :: s in l.stages ==> s.uid != uid
  }

  /** Rows are filed under their own key. */
  ghost predicate WellKeyed(t: Tables) {
    && (forall k :: k in t.stages ==> t.stages[k].stageUid == k)
    && (forall k :: k in t.textes ==> t.textes[k].uid == k)
  }

  ghost predicate OrdersGrow(l: Law) {
    forall i, j :: 0 <= i < j < |l.stages| ==> l.stages[i].order < l.stages[j].order
  }

  lemma SelectedRow(t: Tables, l: Law, s3Key: Option<string>, rows: seq<StageRow>, r: StageRow)
    requires WellKeyed(t) && DistinctStages(l) && SelectsStages(Saved(t, l, s3Key), l.dossierUid, rows)
    ensures r in rows <==> r in PrintStages(l.stages, l.dossierUid) || (Stale(t, l, r.stageUid) && t.stages[r.stageUid] == r)
  {
    var printed := PrintStages(l.stages, l.dossierUid);
    PutStagesIs(t.stages, l.stages, l.dossierUid, r.stageUid);
    if s :| s in l.stages && s.uid == r.stageUid {
      var k :| 0 <= k < |l.stages| && l.stages[k] == s;
      assert printed[k] == PrintStage(s, l.dossierUid) && printed[k] in printed;
    }
    if r in printed {
      var k :| 0 <= k < |printed| && printed[k] == r;
      assert l.stages[k] in l.stages && l.stages[k].uid == r.stageUid;
    }
  }

  lemma SameMembersSameBag<T>(a: seq<T>, b: seq<T>)
    requires Distinct(a) && Distinct(b) && forall x :: x in a <==> x in b
    ensures multiset(a) == multiset(b)
  {
    forall x ensures multiset(a)[x] == multiset(b)[x] {
      DistinctCountsOnce(a, x);
      DistinctCountsOnce(b, x);
    }
  }

  /** With distinct positions, sorting by position has one outcome. */
  lemma SameRowsSameOrder(rows: seq<StageRow>, l: Law)
    requires OrdersGrow(l) && DistinctStages(l) && Sorted(rows, ByPosition())
    requires forall i, j :: 0 <= i < j < |rows| ==> rows[i] != rows[j]
    requires forall r :: r in rows <==> r in PrintStages(l.stages, l.dossierUid)
    ensures rows == PrintStages(l.stages, l.dossierUid)
  {
    var printed := PrintStages(l.stages, l.dossierUid);
    assert Distinct(rows) && Distinct(printed);
    SameMembersSameBag(rows, printed);
    forall x, y | x in rows && y in rows && ByPosition()(x, y) && ByPosition()(y, x) ensures x == y {
      assert x in printed && y in printed;
      var i :| 0 <= i < |printed| && printed[i] == x;
      var j :| 0 <= j < |printed| && printed[j] == y;
      assert l.stages[i].order == l.stages[j].order;
    }
    SortedIsUnique(rows, printed, ByPosition());
  }

  lemma PrintThenRead(l: Law)
    ensures ReadStages(PrintStages(l.stages, l.dossierUid)) == l.stages
  {
  }

  /**
   The stages read back are those saved, in order, exactly when the tables held no
   other stage of that dossier: nothing is ever deleted, so a stage that the source dropped stays.
   */
  lemma StagesRoundTripIffNoStale(t: Tables, l: Law, s3Key: Option<string>, rows: seq<StageRow>)
    requires WellKeyed(t) && DistinctStages(l) && OrdersGrow(l)
    requires SelectsStages(Saved(t, l, s3Key), l.dossierUid, rows)
    ensures ReadStages(rows) == l.stages <==> forall uid :: !Stale(t, l, uid)
  {
    forall r ensures r in rows <==> r in PrintStages(l.stages, l.dossierUid) || (Stale(t, l, r.stageUid) && t.stages[r.stageUid] == r) {
      SelectedRow(t, l, s3Key, rows, r);
    }
    if forall uid :: !Stale(t, l, uid) {
      SameRowsSameOrder(rows, l);
      PrintThenRead(l);
    } else {
      var uid :| Stale(t, l, uid);
      var r := t.stages[uid];
      assert r in rows;
      var k :| 0 <= k < |rows| && rows[k] == r;
      assert ReadStages(rows)[k].uid == uid;
      assert k < |l.stages| ==> l.stages[k] in l.stages && l.stages[k].uid != uid;
    }
  }

  lemma {:induction false} PutTextesIs(m: map<string, TexteRow>, textes: seq<Texte>, uid: string)
    requires forall i, j :: 0 <= i < j < |textes| ==> textes[i].uid != textes[j].uid
    ensures uid in PutTextes(m, textes) <==> uid in m || exists s :: s in textes && s.uid == uid
    ensures forall s :: s in textes && s.uid == uid ==> PutTextes(m, textes)[uid] == PrintTexte(s)
    ensures (forall s :: s in textes ==> s.uid != uid) && uid in m ==> PutTextes(m, textes)[uid] == m[uid]
  {
    if textes == [] {
    } else {
      var init, last := textes[..|textes| - 1], textes[|textes| - 1];
      assert last in textes && forall s :: s in textes <==> s in init || s == last;
      PutTextesIs(m, init, uid);
      forall s | s in init ensures s.uid != last.uid {
        var k :| 0 <= k < |init| && init[k] == s;
        assert textes[k].uid != textes[|textes| - 1].uid;
      }
    }
  }

  /** No row of the dossier before the save. */
  ghost predicate Fresh(t: Tables, d: string) {
    && (forall k :: k in t.stages ==> t.stages[k].dossierUid != d)
    && (forall k :: k in t.textes ==> t.textes[k].dossierUid != d)
  }

  /** On fresh rows the documents come back too, in some order. */
  lemma TextesComeBack(t: Tables, l: Law, s3Key: Option<string>, rows: seq<TexteRow>)
    requires Fresh(t, l.dossierUid) && DistinctTextes(l) && forall x :: x in l.textes ==> x.dossierUid == l.dossierUid
    requires SelectsTextes(Saved(t, l, s3Key), l.dossierUid, rows)
    ensures multiset(ReadTextes(rows)) == multiset(l.textes)
    ensures forall x :: x in ReadTextes(rows) <==> x in l.textes
  {
    var back := ReadTextes(rows);
    forall x ensures x in back <==> x in l.textes {
      PutTextesIs(t.textes, l.textes, x.uid);
      if x in back {
        var k :| 0 <= k < |back| && back[k] == x;
        assert rows[k] in rows;
      }
      if x in l.textes {
        assert PrintTexte(x) in rows;
        var k :| 0 <= k < |rows| && rows[k] == PrintTexte(x);
        assert back[k] == x;
      }
    }
    forall i, j | 0 <= i < j < |back| ensures back[i] != back[j] {
      assert rows[i] != rows[j] && PrintTexte(back[i]) == rows[i] && PrintTexte(back[j]) == rows[j];
    }
    assert Distinct(back) && Distinct(l.textes);
    SameMembersSameBag(back, l.textes);
  }

  /** The law went through its transaction on tables without it, and the rows are what the two queries give. */
  ghost predicate SavedOnFreshRows(t: Tables, l: Law, s3Key: Option<string>, stageRows: seq<StageRow>, texteRows: seq<TexteRow>) {
    && WellKeyed(t) && Fresh(t, l.dossierUid) && DistinctStages(l) && DistinctTextes(l)
    && (forall x :: x in l.textes ==> x.dossierUid == l.dossierUid)
    && SelectsStages(Saved(t, l, s3Key), l.dossierUid, stageRows)
    && SelectsTextes(Saved(t, l, s3Key), l.dossierUid, texteRows)
  }

  /**
   Saved on fresh rows and rebuilt, a parsed dossier is itself again but for the archive
   key and the order of its documents, whatever order the database lists them in.
   */
  lemma ParsedDossierRoundTrips(t: Tables, d: RawDossier, textes: map<string, seq<Texte>>, s3Key: Option<string>,
                                stageRows: seq<StageRow>, texteRows: seq<TexteRow>)
    requires ParseDossier(d, textes).Some? && SavedOnFreshRows(t, ParseDossier(d, textes).value, s3Key, stageRows, texteRows)
    ensures var l := ParseDossier(d, textes).value;
            var back := LawFromRaw(Saved(t, l, s3Key).laws[l.dossierUid], stageRows, texteRows);
            && back == l.(textes := back.textes, s3Key := s3Key)
            && multiset(back.textes) == multiset(l.textes)
  {
    var l := ParseDossier(d, textes).value;
    PositionsGrow(d.actes);
    assert OrdersGrow(l);
    StagesRoundTripIffNoStale(t, l, s3Key, stageRows);
    TextesComeBack(t, l, s3Key, texteRows);
  }

  /** What the law projection computes from the entity. */
  datatype Projected = Projected(
    isLaw: bool, lawType: Option<LawType>, number: Option<int>, status: LawStatus, depositedAt: Option<int>,
    readings: seq<ReadingRow>)

  function Project(l: Law): Projected {
    Projected(IsLaw(l), TypeOf(l), Number(l.textes), Status(l), DepositedAt(l.stages), ReadingRows(l.stages))
  }

  lemma ProjectIgnoresTextOrder(l: Law, back: Law)
    requires back == l.(textes := back.textes, s3Key := back.s3Key) && forall t :: t in back.textes <==> t in l.textes
    ensures Project(back) == Project(l)
  {
    NumberIgnoresOrder(back.textes, l.textes);
  }

  /** So the projection shows the law that was parsed: type, number, status, deposit date and readings. */
  lemma ProjectionIsOfTheParsedLaw(t: Tables, d: RawDossier, textes: map<string, seq<Texte>>, s3Key: Option<string>,
                                   stageRows: seq<StageRow>, texteRows: seq<TexteRow>)
    requires ParseDossier(d, textes).Some? && SavedOnFreshRows(t, ParseDossier(d, textes).value, s3Key, stageRows, texteRows)
    ensures var l := ParseDossier(d, textes).value;
            Project(LawFromRaw(Saved(t, l, s3Key).laws[l.dossierUid], stageRows, texteRows)) == Project(l)
  {
    var l := ParseDossier(d, textes).value;
    ParsedDossierRoundTrips(t, d, textes, s3Key, stageRows, texteRows);
    TextesComeBack(t, l, s3Key, texteRows);
    ProjectIgnoresTextOrder(l, LawFromRaw(Saved(t, l, s3Key).laws[l.dossierUid], stageRows, texteRows));
  }
}

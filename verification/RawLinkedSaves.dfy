/**
 The two transactions of the `raw` schema that read the store back before their
 last statement: speeches need the ids of their points, law texts the dossier of their document.
 */
module RawLinkedSaves {
  import opened Prelude
  import opened RawStore
  import opened RawRepositories

  // ---------------------------------------------------------------- sittings

  datatype PointRow = PointRow(uid: string, cols: Cols, speeches: seq<Entity>)

  datatype Sitting = Sitting(root: Entity, uid: string, points: seq<PointRow>)

  /** A speech row before it knows the surrogate id of its point. */
  datatype Speech = Speech(pointUid: string, entity: Entity)

  function WithUid(points: seq<PointRow>): (r: seq<PointRow>)
    ensures forall p :: p in r <==> p in points && p.uid != ""
  {
    if points == [] then []
    else if points[0].uid != "" then [points[0]] + WithUid(points[1..]) else WithUid(points[1..])
  }

  function PointAddress(uid: string): Address { Address(DebatePoint, [uid]) }

  function PointWrites(d: Sitting): (r: seq<Write>)
    ensures OneTable(r, DebatePoint)
  {
    var kept := WithUid(d.points);
    seq(|kept|, i requires 0 <= i < |kept| =>
      Write(PointAddress(kept[i].uid), kept[i].cols["debate_uid" := Text(d.uid)]))
  }

  lemma PointIsWritten(d: Sitting, p: PointRow) returns (w: Write)
    requires p in WithUid(d.points)
    ensures w in PointWrites(d) && w.at == PointAddress(p.uid)
  {
    var i :| 0 <= i < |WithUid(d.points)| && WithUid(d.points)[i] == p;
    w := PointWrites(d)[i];
  }

  function SpeechesOf(point: string, es: seq<Entity>): (r: seq<Speech>)
    ensures forall x :: x in r ==> x.pointUid == point && x.entity in es
  {
    if es == [] then []
    else (if es[0].key != [""] then [Speech(point, es[0])] else []) + SpeechesOf(point, es[1..])
  }

  function Speeches(points: seq<PointRow>): (r: seq<Speech>)
    ensures forall x :: x in r ==> exists p :: p in points && p.uid == x.pointUid
  {
    if points == [] then []
    else
      assert points[0] in points;
      SpeechesOf(points[0].uid, points[0].speeches) + Speeches(points[1..])
  }

  ghost predicate PointsPresent(s: Store, speeches: seq<Speech>) {
    forall x :: x in speeches ==> PointAddress(x.pointUid) in s.rows
  }

  function Linked(s: Store, speeches: seq<Speech>): (r: seq<Write>)
    requires PointsPresent(s, speeches)
    ensures OneTable(r, Intervention)
  {
    seq(|speeches|, i requires 0 <= i < |speeches| =>
      var x := speeches[i];
      assert x in speeches;
      Write(Address(Intervention, x.entity.key),
            x.entity.cols["debate_point_id" := Ref(s.rows[PointAddress(x.pointUid)].id)]))
  }

  function HeaderWrites(d: Sitting, tracking: Cols): seq<Write> {
    [TrackedRow(Debate, d.root, tracking)] + PointWrites(d)
  }

  lemma HeaderStoresPoints(s: Store, d: Sitting, tracking: Cols, now: int)
    ensures PointsPresent(ApplyAll(s, HeaderWrites(d, tracking), now), Speeches(WithUid(d.points)))
  {
    forall x | x in Speeches(WithUid(d.points))
      ensures PointAddress(x.pointUid) in ApplyAll(s, HeaderWrites(d, tracking), now).rows
    {
      var p :| p in WithUid(d.points) && p.uid == x.pointUid;
      var w := PointIsWritten(d, p);
      assert w in HeaderWrites(d, tracking);
      RowAfter(s, HeaderWrites(d, tracking), now, w.at);
    }
  }

  function SittingWrites(s: Store, d: Sitting, tracking: Cols, now: int): seq<Write> {
    HeaderStoresPoints(s, d, tracking, now);
    HeaderWrites(d, tracking)
    + Linked(ApplyAll(s, HeaderWrites(d, tracking), now), Speeches(WithUid(d.points)))
  }

  /** Both multi-row statements go through: no point and no speech appears twice. */
  predicate Accepted(s: Store, d: Sitting, tracking: Cols, now: int) {
    HeaderStoresPoints(s, d, tracking, now);
    var rows := Linked(ApplyAll(s, HeaderWrites(d, tracking), now), Speeches(WithUid(d.points)));
    && (PointWrites(d) == [] || Acceptable(PointWrites(d)))
    && (rows == [] || Acceptable(rows))
  }

  // ---------------------------------------------------------------- what a saved sitting comes to

  /** A speech with a uid, under a point with a uid. */
  predicate Speaks(d: Sitting, p: PointRow, e: Entity) {
    p in d.points && p.uid != "" && e in p.speeches && e.key != [""]
  }

  predicate IsPointAddress(d: Sitting, a: Address) {
    exists p :: p in d.points && p.uid != "" && a == PointAddress(p.uid)
  }

  predicate IsSpeechAddress(d: Sitting, a: Address) {
    a.table == Intervention && exists p, e :: p in d.points && e in p.speeches && Speaks(d, p, e) && a.key == e.key
  }

  predicate IsSittingAddress(d: Sitting, a: Address) {
    a == Address(Debate, d.root.key) || IsPointAddress(d, a) || IsSpeechAddress(d, a)
  }

  ghost predicate SpeechStored(s: Store, p: PointRow, e: Entity) {
    && PointAddress(p.uid) in s.rows
    && Holds(s, Write(Address(Intervention, e.key), e.cols["debate_point_id" := Ref(s.rows[PointAddress(p.uid)].id)]))
  }

  /** The sitting, each point, each speech of each point with the id of its own point; and no other row moved. */
  ghost predicate SittingStored(s: Store, s': Store, d: Sitting, tracking: Cols) {
    && Holds(s', Write(Address(Debate, d.root.key), d.root.cols + tracking))
    && (forall p :: p in d.points && p.uid != "" ==> Holds(s', Write(PointAddress(p.uid), p.cols["debate_uid" := Text(d.uid)])))
    && (forall p, e :: p in d.points && e in p.speeches && Speaks(d, p, e) ==> SpeechStored(s', p, e))
    && OnlyMoves(s, s', (a: Address) => IsSittingAddress(d, a))
  }

  lemma {:induction false} SpeechesOfPoint(point: string, es: seq<Entity>, x: Speech)
    ensures x in SpeechesOf(point, es) <==> x.pointUid == point && x.entity in es && x.entity.key != [""]
  {
    if es == [] {
    } else {
      SpeechesOfPoint(point, es[1..], x);
    }
  }

  /** The speeches listed are those of the points. */
  lemma {:induction false} SpeechesAre(points: seq<PointRow>, x: Speech)
    ensures x in Speeches(points) <==> exists p :: p in points && p.uid == x.pointUid && x.entity in p.speeches && x.entity.key != [""]
  {
    if points == [] {
    } else {
      SpeechesAre(points[1..], x);
      SpeechesOfPoint(points[0].uid, points[0].speeches, x);
      assert forall p :: p in points <==> p == points[0] || p in points[1..];
    }
  }

  lemma LastOfDistinct(s: Store, before: seq<Write>, part: seq<Write>, t: TableName, after: seq<Write>, now: int, w: Write)
    requires DistinctKeys(part) && OneTable(part, t) && w in part && forall v :: v in after ==> v.at.table != t
    ensures Holds(ApplyAll(s, before + part + after, now), w)
  {
    var i :| 0 <= i < |part| && part[i] == w;
    var ws := before + part + after;
    assert ws[|before| + i] == w;
    forall j | |before| + i < j < |ws| ensures ws[j].at != w.at {
      if j < |before| + |part| { assert ws[j] == part[j - |before|]; } else { assert ws[j] in after; }
    }
    LastWriteHolds(s, ws, now, |before| + i);
  }

  lemma PointIsStored(s: Store, d: Sitting, tracking: Cols, now: int, p: PointRow)
    requires Accepted(s, d, tracking, now) && p in d.points && p.uid != ""
    ensures Holds(ApplyAll(s, SittingWrites(s, d, tracking, now), now), Write(PointAddress(p.uid), p.cols["debate_uid" := Text(d.uid)]))
  {
    HeaderStoresPoints(s, d, tracking, now);
    var linked := Linked(ApplyAll(s, HeaderWrites(d, tracking), now), Speeches(WithUid(d.points)));
    var i :| 0 <= i < |WithUid(d.points)| && WithUid(d.points)[i] == p;
    assert PointWrites(d)[i] in PointWrites(d);
    LastOfDistinct(s, [TrackedRow(Debate, d.root, tracking)], PointWrites(d), DebatePoint, linked, now, PointWrites(d)[i]);
  }

  lemma SpeechIsStored(s: Store, d: Sitting, tracking: Cols, now: int, p: PointRow, e: Entity)
    requires Accepted(s, d, tracking, now) && Speaks(d, p, e)
    ensures SpeechStored(ApplyAll(s, SittingWrites(s, d, tracking, now), now), p, e)
  {
    var header, speeches := HeaderWrites(d, tracking), Speeches(WithUid(d.points));
    HeaderStoresPoints(s, d, tracking, now);
    var mid := ApplyAll(s, header, now);
    var linked := Linked(mid, speeches);
    SpeechesAre(WithUid(d.points), Speech(p.uid, e));
    var i :| 0 <= i < |speeches| && speeches[i] == Speech(p.uid, e);
    assert linked[i] in linked && header + linked + [] == header + linked;
    LastOfDistinct(s, header, linked, Intervention, [], now, linked[i]);
    ApplyAllAppend(s, header, linked, now);
    UnnamedRowStays(mid, linked, now, PointAddress(p.uid));
  }

  lemma PointWriteIsThere(d: Sitting, w: Write)
    requires w in PointWrites(d)
    ensures IsPointAddress(d, w.at)
  {
    var i :| 0 <= i < |PointWrites(d)| && PointWrites(d)[i] == w;
    assert WithUid(d.points)[i] in d.points;
  }

  lemma SpeechWriteIsThere(s: Store, d: Sitting, w: Write)
    requires PointsPresent(s, Speeches(WithUid(d.points))) && w in Linked(s, Speeches(WithUid(d.points)))
    ensures IsSpeechAddress(d, w.at)
  {
    var speeches := Speeches(WithUid(d.points));
    var i :| 0 <= i < |speeches| && Linked(s, speeches)[i] == w;
    SpeechesAre(WithUid(d.points), speeches[i]);
    var p :| p in WithUid(d.points) && p.uid == speeches[i].pointUid && speeches[i].entity in p.speeches && speeches[i].entity.key != [""];
    assert Speaks(d, p, speeches[i].entity);
  }

  lemma SittingWriteIsThere(s: Store, d: Sitting, tracking: Cols, now: int, w: Write)
    requires w in SittingWrites(s, d, tracking, now)
    ensures IsSittingAddress(d, w.at)
  {
    HeaderStoresPoints(s, d, tracking, now);
    if w in PointWrites(d) {
      PointWriteIsThere(d, w);
    } else if w in Linked(ApplyAll(s, HeaderWrites(d, tracking), now), Speeches(WithUid(d.points))) {
      SpeechWriteIsThere(ApplyAll(s, HeaderWrites(d, tracking), now), d, w);
    }
  }

  lemma SittingLeavesOthers(s: Store, d: Sitting, tracking: Cols, now: int)
    ensures OnlyMoves(s, ApplyAll(s, SittingWrites(s, d, tracking, now), now), (a: Address) => IsSittingAddress(d, a))
  {
    var ws := SittingWrites(s, d, tracking, now);
    forall a: Address | !IsSittingAddress(d, a)
      ensures (a in ApplyAll(s, ws, now).rows <==> a in s.rows) && (a in s.rows ==> ApplyAll(s, ws, now).rows[a] == s.rows[a])
    {
      forall w | w in ws ensures w.at != a { SittingWriteIsThere(s, d, tracking, now, w); }
      UnnamedRowStays(s, ws, now, a);
    }
  }

  lemma SittingTables(s: Store, d: Sitting, tracking: Cols, now: int, j: nat)
    requires 0 < j < |SittingWrites(s, d, tracking, now)|
    ensures !Tracked(SittingWrites(s, d, tracking, now)[j].at.table)
  {
    HeaderStoresPoints(s, d, tracking, now);
    var linked := Linked(ApplyAll(s, HeaderWrites(d, tracking), now), Speeches(WithUid(d.points)));
    if j <= |PointWrites(d)| {
      assert PointWrites(d)[j - 1] in PointWrites(d);
    } else {
      assert linked[j - 1 - |PointWrites(d)|] in linked;
    }
  }

  lemma RootIsStored(s: Store, d: Sitting, tracking: Cols, now: int)
    ensures Holds(ApplyAll(s, SittingWrites(s, d, tracking, now), now), Write(Address(Debate, d.root.key), d.root.cols + tracking))
  {
    var ws := SittingWrites(s, d, tracking, now);
    HeaderStoresPoints(s, d, tracking, now);
    assert ws[0] == TrackedRow(Debate, d.root, tracking);
    forall j | 0 < j < |ws| ensures ws[j].at != ws[0].at { SittingTables(s, d, tracking, now, j); }
    LastWriteHolds(s, ws, now, 0);
  }

  lemma SittingIsStored(s: Store, d: Sitting, tracking: Cols, now: int)
    requires Accepted(s, d, tracking, now)
    ensures SittingStored(s, ApplyAll(s, SittingWrites(s, d, tracking, now), now), d, tracking)
  {
    var s' := ApplyAll(s, SittingWrites(s, d, tracking, now), now);
    RootIsStored(s, d, tracking, now);
    forall p | p in d.points && p.uid != "" ensures Holds(s', Write(PointAddress(p.uid), p.cols["debate_uid" := Text(d.uid)])) {
      PointIsStored(s, d, tracking, now, p);
    }
    forall p, e | p in d.points && e in p.speeches && Speaks(d, p, e) ensures SpeechStored(s', p, e) {
      SpeechIsStored(s, d, tracking, now, p, e);
    }
    SittingLeavesOthers(s, d, tracking, now);
  }

  method SaveSitting(repo: RawRepository, d: Sitting, tracking: Cols, now: int)
    returns (r: Result<bool, StatementError>)
    modifies repo
    ensures r.Ok? <==> Accepted(old(repo.db), d, tracking, now)
    ensures r.Err? ==> repo.db == old(repo.db)
    ensures r.Ok? ==> repo.db == ApplyAll(old(repo.db), SittingWrites(old(repo.db), d, tracking, now), now)
    ensures r.Ok? ==> SittingStored(old(repo.db), repo.db, d, tracking)
    ensures r.Ok? ==> (r.value <==> Address(Debate, d.root.key) !in old(repo.db).rows)
  {
    var start := repo.db;
    if Accepted(start, d, tracking, now) { SittingIsStored(start, d, tracking, now); }
    var root := TrackedRow(Debate, d.root, tracking);
    var _, created := repo.Upsert(root, now);
    assert [root][..0] == [] && ApplyAll(start, [root], now) == Apply(start, root, now);
    var points := WithUid(d.points);
    if points == [] {
      assert PointWrites(d) == [] && SittingWrites(start, d, tracking, now) == [root];
      return Ok(created);
    }
    var p := repo.BulkUpsert(DebatePoint, PointWrites(d), now);
    if p.Err? {
      repo.db := start;
      return Err(p.error);
    }
    ApplyAllAppend(start, [root], PointWrites(d), now);
    HeaderStoresPoints(start, d, tracking, now);
    var rows := Linked(repo.db, Speeches(points));
    assert SittingWrites(start, d, tracking, now) == HeaderWrites(d, tracking) + rows;
    ApplyAllAppend(start, HeaderWrites(d, tracking), rows, now);
    if rows != [] {
      var i := repo.BulkUpsert(Intervention, rows, now);
      if i.Err? {
        repo.db := start;
        return Err(i.error);
      }
    } else {
      assert HeaderWrites(d, tracking) + rows == HeaderWrites(d, tracking);
    }
    return Ok(created);
  }

  lemma LinkedRow(s: Store, speeches: seq<Speech>, now: int, k: nat)
    requires PointsPresent(s, speeches) && DistinctKeys(Linked(s, speeches)) && k < |speeches|
    ensures var rows := ApplyAll(s, Linked(s, speeches), now).rows;
            var at, point := Address(Intervention, speeches[k].entity.key), PointAddress(speeches[k].pointUid);
            && at in rows && point in rows
            && Get(rows[at].cols, "debate_point_id") == Ref(rows[point].id)
  {
    assert speeches[k] in speeches;
    var ws := Linked(s, speeches);
    LandsAlone(s, ws, now, Intervention, k);
    UnnamedRowStays(s, ws, now, PointAddress(speeches[k].pointUid));
    assert "debate_point_id" in ws[k].values;
  }

  /** Every speech ends linked to the surrogate id that its own point carries. */
  lemma SpeechKnowsItsPoint(s: Store, d: Sitting, tracking: Cols, now: int, k: nat)
    requires Accepted(s, d, tracking, now) && k < |Speeches(WithUid(d.points))|
    ensures var x := Speeches(WithUid(d.points))[k];
            var rows := ApplyAll(s, SittingWrites(s, d, tracking, now), now).rows;
            var at := Address(Intervention, x.entity.key);
            && at in rows && PointAddress(x.pointUid) in rows
            && Get(rows[at].cols, "debate_point_id") == Ref(rows[PointAddress(x.pointUid)].id)
  {
    var speeches := Speeches(WithUid(d.points));
    HeaderStoresPoints(s, d, tracking, now);
    var mid := ApplyAll(s, HeaderWrites(d, tracking), now);
    ApplyAllAppend(s, HeaderWrites(d, tracking), Linked(mid, speeches), now);
    LinkedRow(mid, speeches, now, k);
  }

  /** A point keeps its id through the speeches of one save and the header of the next. */
  lemma PointIdIsStable(s: Store, d: Sitting, run1: Cols, run2: Cols, t1: int, t2: int, x: Speech)
    requires x in Speeches(WithUid(d.points))
    ensures var s1 := ApplyAll(s, SittingWrites(s, d, run1, t1), t1);
            var mid, again, a := ApplyAll(s, HeaderWrites(d, run1), t1), ApplyAll(s1, HeaderWrites(d, run2), t2), PointAddress(x.pointUid);
            a in mid.rows && a in again.rows && mid.rows[a].id == again.rows[a].id
  {
    HeaderStoresPoints(s, d, run1, t1);
    var mid := ApplyAll(s, HeaderWrites(d, run1), t1);
    var linked := Linked(mid, Speeches(WithUid(d.points)));
    ApplyAllAppend(s, HeaderWrites(d, run1), linked, t1);
    RowAfter(mid, linked, t1, PointAddress(x.pointUid));
    RowAfter(ApplyAll(mid, linked, t1), HeaderWrites(d, run2), t2, PointAddress(x.pointUid));
  }

  lemma SameIdsLinkTheSameWay(s: Store, s': Store, speeches: seq<Speech>)
    requires PointsPresent(s, speeches) && PointsPresent(s', speeches)
    requires forall x :: x in speeches ==> s.rows[PointAddress(x.pointUid)].id == s'.rows[PointAddress(x.pointUid)].id
    ensures SameWrites(Linked(s, speeches), Linked(s', speeches))
  {
    forall i | 0 <= i < |speeches| ensures SameWrite(Linked(s, speeches)[i], Linked(s', speeches)[i]) {
      assert speeches[i] in speeches;
    }
  }

  lemma HeaderAgain(d: Sitting, run1: Cols, run2: Cols)
    requires IsBookkeeping(run1) && run1.Keys == run2.Keys
    ensures SameWrites(HeaderWrites(d, run1), HeaderWrites(d, run2))
  {
  }

  lemma PointIdsAreStable(s: Store, d: Sitting, run1: Cols, run2: Cols, t1: int, t2: int)
    ensures var speeches, s1 := Speeches(WithUid(d.points)), ApplyAll(s, SittingWrites(s, d, run1, t1), t1);
            var mid, again := ApplyAll(s, HeaderWrites(d, run1), t1), ApplyAll(s1, HeaderWrites(d, run2), t2);
            && PointsPresent(mid, speeches) && PointsPresent(again, speeches)
            && SameWrites(Linked(mid, speeches), Linked(again, speeches))
  {
    var speeches, s1 := Speeches(WithUid(d.points)), ApplyAll(s, SittingWrites(s, d, run1, t1), t1);
    HeaderStoresPoints(s, d, run1, t1);
    HeaderStoresPoints(s1, d, run2, t2);
    var mid, again := ApplyAll(s, HeaderWrites(d, run1), t1), ApplyAll(s1, HeaderWrites(d, run2), t2);
    forall x | x in speeches ensures mid.rows[PointAddress(x.pointUid)].id == again.rows[PointAddress(x.pointUid)].id {
      PointIdIsStable(s, d, run1, run2, t1, t2, x);
    }
    SameIdsLinkTheSameWay(mid, again, speeches);
  }

  /** Ids are stable, so the second save of a sitting writes the very same speeches. */
  lemma SpeechesLinkTheSameWay(s: Store, d: Sitting, run1: Cols, run2: Cols, t1: int, t2: int)
    requires IsBookkeeping(run1) && run1.Keys == run2.Keys
    ensures var s1 := ApplyAll(s, SittingWrites(s, d, run1, t1), t1);
            SameWrites(SittingWrites(s, d, run1, t1), SittingWrites(s1, d, run2, t2))
  {
    var speeches, s1 := Speeches(WithUid(d.points)), ApplyAll(s, SittingWrites(s, d, run1, t1), t1);
    HeaderStoresPoints(s, d, run1, t1);
    HeaderStoresPoints(s1, d, run2, t2);
    var mid, again := ApplyAll(s, HeaderWrites(d, run1), t1), ApplyAll(s1, HeaderWrites(d, run2), t2);
    PointIdsAreStable(s, d, run1, run2, t1, t2);
    HeaderAgain(d, run1, run2);
    SameWritesJoin(HeaderWrites(d, run1), HeaderWrites(d, run2), Linked(mid, speeches), Linked(again, speeches));
  }

  /** A sitting with its points and speeches saved twice: nothing created, no content and no time moved. */
  lemma SittingSavedTwice(s: Store, d: Sitting, run1: Cols, run2: Cols, t1: int, t2: int)
    requires IsBookkeeping(run1) && run1.Keys == run2.Keys
    ensures var s1 := ApplyAll(s, SittingWrites(s, d, run1, t1), t1);
            var s2 := ApplyAll(s1, SittingWrites(s1, d, run2, t2), t2);
            SameContent(s1, s2) && SameTimes(s1, s2)
  {
    var ws1 := SittingWrites(s, d, run1, t1);
    var s1 := ApplyAll(s, ws1, t1);
    var ws2 := SittingWrites(s1, d, run2, t2);
    SpeechesLinkTheSameWay(s, d, run1, run2, t1, t2);
    forall i, j | 0 <= i < j < |ws1| && Tracked(ws1[i].at.table) ensures ws1[i].at != ws1[j].at {
      SittingTables(s, d, run1, t1, j);
    }
    AtMostOneTrackedWrite(ws1);
    SecondRunChangesNoContent(s, ws1, ws2, t1, t2);
    SecondRunMovesNoTime(s, ws1, ws2, t1, t2);
  }

  // ---------------------------------------------------------------- law texts

  /** The dossier that raw.law_texte gives for a text, NULL when it does not know it. */
  function DossierOf(s: Store, texteUid: string): Value {
    var a := Address(LawTexte, [texteUid]);
    if a in s.rows then Get(s.rows[a].cols, "dossier_uid") else Null
  }

  function TextAddress(texteUid: string): Address { Address(LawText, [texteUid]) }

  /** UPDATE of one column of one row; no other column moves, `updated_at` included. */
  function SetColumn(s: Store, a: Address, c: string, v: Value): Store
    requires a in s.rows
  {
    s.(rows := s.rows[a := s.rows[a].(cols := s.rows[a].cols[c := v])])
  }

  /** The dossier that the text itself names: NULL for a page of the website, which does not say. */
  function OwnDossier(text: Entity): Value { Get(text.cols, "dossier_uid") }

  /** The row always names `dossier_uid`. */
  function TextWrite(text: Entity, tracking: Cols): Write {
    Write(Address(LawText, text.key), text.cols["dossier_uid" := OwnDossier(text)] + tracking)
  }

  function FinalDossier(s: Store, texteUid: string, text: Entity): Value {
    if OwnDossier(text) == Null then DossierOf(s, texteUid) else OwnDossier(text)
  }

  function TextHeader(s: Store, texteUid: string, text: Entity, tracking: Cols, now: int): Store
    requires text.key == [texteUid]
  {
    var s1 := Apply(s, TextWrite(text, tracking), now);
    if OwnDossier(text) == Null then SetColumn(s1, TextAddress(texteUid), "dossier_uid", DossierOf(s, texteUid)) else s1
  }

  function TextSaved(s: Store, texteUid: string, text: Entity, articles: seq<Entity>, tracking: Cols, now: int): Store
    requires text.key == [texteUid]
  {
    ApplyAll(TextHeader(s, texteUid, text, tracking, now), Rows(LawArticle, articles), now)
  }

  lemma ArticlesLeaveOtherTables(s: Store, articles: seq<Entity>, now: int, a: Address)
    requires a.table != LawArticle
    ensures a in ApplyAll(s, Rows(LawArticle, articles), now).rows <==> a in s.rows
    ensures a in s.rows ==> ApplyAll(s, Rows(LawArticle, articles), now).rows[a] == s.rows[a]
  {
    UnnamedRowStays(s, Rows(LawArticle, articles), now, a);
  }

  /** The dossier of a saved text: the one it names, else the one of its document, else none. */
  function DossierOfText(s: Store, texteUid: string, text: Entity): Value {
    if "dossier_uid" in text.cols && text.cols["dossier_uid"] != Null then text.cols["dossier_uid"]
    else if Address(LawTexte, [texteUid]) in s.rows then Get(s.rows[Address(LawTexte, [texteUid])].cols, "dossier_uid")
    else Null
  }

  /** The header with its dossier, each article, and no other row moved. */
  ghost predicate LawTextStored(s: Store, s': Store, texteUid: string, text: Entity, articles: seq<Entity>, tracking: Cols) {
    && Holds(s', Write(TextAddress(texteUid), (text.cols + tracking)["dossier_uid" := DossierOfText(s, texteUid, text)]))
    && RowsHold(s', LawArticle, articles, map[])
    && (forall key :: HasKey(articles, key) ==> Address(LawArticle, key) in s'.rows)
    && OnlyMoves(s, s', (a: Address) => a == TextAddress(texteUid) || (a.table == LawArticle && HasKey(articles, a.key)))
  }

  lemma HeaderLeavesOthers(s: Store, texteUid: string, text: Entity, tracking: Cols, now: int, x: Address)
    requires text.key == [texteUid] && x != TextAddress(texteUid)
    ensures var h := TextHeader(s, texteUid, text, tracking, now);
            (x in h.rows <==> x in s.rows) && (x in s.rows ==> h.rows[x] == s.rows[x])
  {
  }

  lemma HeaderHolds(s: Store, texteUid: string, text: Entity, tracking: Cols, now: int)
    requires text.key == [texteUid] && IsBookkeeping(tracking)
    ensures var values := (text.cols + tracking)["dossier_uid" := DossierOfText(s, texteUid, text)];
            Holds(TextHeader(s, texteUid, text, tracking, now), Write(TextAddress(texteUid), values))
  {
    assert "dossier_uid" !in tracking;
  }

  lemma LawTextIsStored(s: Store, texteUid: string, text: Entity, articles: seq<Entity>, tracking: Cols, now: int)
    requires text.key == [texteUid] && IsBookkeeping(tracking)
    ensures LawTextStored(s, TextSaved(s, texteUid, text, articles, tracking, now), texteUid, text, articles, tracking)
  {
    var h, s' := TextHeader(s, texteUid, text, tracking, now), TextSaved(s, texteUid, text, articles, tracking, now);
    HeaderHolds(s, texteUid, text, tracking, now);
    ArticlesLeaveOtherTables(h, articles, now, TextAddress(texteUid));
    RowsAreUntracked(LawArticle, articles);
    TrackedRowsAreStored(h, LawArticle, articles, map[], now);
    forall a: Address | a != TextAddress(texteUid) && !(a.table == LawArticle && HasKey(articles, a.key))
      ensures (a in s'.rows <==> a in s.rows) && (a in s.rows ==> s'.rows[a] == s.rows[a])
    {
      HeaderLeavesOthers(s, texteUid, text, tracking, now, a);
    }
  }

  method SaveLawText(repo: RawRepository, texteUid: string, text: Entity, articles: seq<Entity>, tracking: Cols, now: int)
    returns (r: Result<bool, StatementError>)
    requires text.key == [texteUid]
    modifies repo
    ensures r.Ok? <==> articles == [] || Acceptable(Rows(LawArticle, articles))
    ensures r.Err? ==> repo.db == old(repo.db)
    ensures r.Ok? ==> repo.db == TextSaved(old(repo.db), texteUid, text, articles, tracking, now)
    ensures r.Ok? && IsBookkeeping(tracking) ==> LawTextStored(old(repo.db), repo.db, texteUid, text, articles, tracking)
    ensures r.Ok? ==> (r.value <==> TextAddress(texteUid) !in old(repo.db).rows)
  {
    var start := repo.db;
    if IsBookkeeping(tracking) { LawTextIsStored(start, texteUid, text, articles, tracking, now); }
    var _, created := repo.Upsert(TextWrite(text, tracking), now);
    if OwnDossier(text) == Null {
      repo.db := SetColumn(repo.db, TextAddress(texteUid), "dossier_uid", DossierOf(repo.db, texteUid));
    }
    if articles != [] {
      var a := repo.BulkUpsert(LawArticle, Rows(LawArticle, articles), now);
      if a.Err? {
        repo.db := start;
        return Err(a.error);
      }
    }
    return Ok(created);
  }

  /** The header row right after the UPDATE, if there is one. */
  lemma HeaderRow(s: Store, texteUid: string, text: Entity, tracking: Cols, now: int)
    requires text.key == [texteUid] && IsBookkeeping(tracking)
    ensures var s1 := TextHeader(s, texteUid, text, tracking, now);
            var a := TextAddress(texteUid);
            && a in s1.rows
            && Get(s1.rows[a].cols, "dossier_uid") == FinalDossier(s, texteUid, text)
            && (forall c :: c in text.cols && c !in TRACKING && c != "dossier_uid" ==> Get(s1.rows[a].cols, c) == text.cols[c])
            && (forall c :: c !in text.cols && c !in TRACKING && c != "dossier_uid" ==>
                  Get(s1.rows[a].cols, c) == Get(Before(s, a), c))
            && (a in s.rows ==> s1.rows[a].id == s.rows[a].id && s1.rows[a].createdAt == s.rows[a].createdAt)
            && (a in s.rows && Changed(s.rows[a].cols, TextWrite(text, tracking).values) ==> s1.rows[a].updatedAt == now)
            && (a in s.rows && !Changed(s.rows[a].cols, TextWrite(text, tracking).values) ==>
                  s1.rows[a].updatedAt == s.rows[a].updatedAt)
  {
  }

  /** What a second save finds is what it writes, but for a dossier it writes as NULL. */
  lemma ReSaveChanges(cols: Cols, text: Entity, tracking: Cols, d: Value)
    requires IsBookkeeping(tracking) && Get(cols, "dossier_uid") == d
    requires forall c :: c in text.cols && c !in TRACKING && c != "dossier_uid" ==> Get(cols, c) == text.cols[c]
    ensures Changed(cols, TextWrite(text, tracking).values) <==> d != OwnDossier(text)
  {
    var values := text.cols["dossier_uid" := OwnDossier(text)] + tracking;
    if d != OwnDossier(text) {
      assert "dossier_uid" in values && "dossier_uid" !in TRACKING && Get(cols, "dossier_uid") != values["dossier_uid"];
    }
  }

  /** The articles leave the header and the document alone. */
  lemma SavedHeader(s: Store, texteUid: string, text: Entity, articles: seq<Entity>, tracking: Cols, now: int)
    requires text.key == [texteUid]
    ensures var saved, a := TextSaved(s, texteUid, text, articles, tracking, now), TextAddress(texteUid);
            && a in saved.rows && saved.rows[a] == TextHeader(s, texteUid, text, tracking, now).rows[a]
            && DossierOf(saved, texteUid) == DossierOf(s, texteUid)
  {
    var h := TextHeader(s, texteUid, text, tracking, now);
    ArticlesLeaveOtherTables(h, articles, now, TextAddress(texteUid));
    ArticlesLeaveOtherTables(h, articles, now, Address(LawTexte, [texteUid]));
  }

  /** The header row after one save, and after a second one with another clock. */
  lemma TextHeaderTwice(s: Store, texteUid: string, text: Entity, articles: seq<Entity>, run1: Cols, run2: Cols, t1: int, t2: int)
    requires text.key == [texteUid] && IsBookkeeping(run1) && run1.Keys == run2.Keys
    ensures var s1 := TextSaved(s, texteUid, text, articles, run1, t1);
            var s2 := TextSaved(s1, texteUid, text, articles, run2, t2);
            var a := TextAddress(texteUid);
            && a in s1.rows && a in s2.rows
            && s1.rows[a].id == s2.rows[a].id && s1.rows[a].createdAt == s2.rows[a].createdAt
            && (forall c :: c !in TRACKING ==> Get(s1.rows[a].cols, c) == Get(s2.rows[a].cols, c))
            && s2.rows[a].updatedAt == (if FinalDossier(s, texteUid, text) == OwnDossier(text) then s1.rows[a].updatedAt else t2)
  {
    var a := TextAddress(texteUid);
    var s1 := TextSaved(s, texteUid, text, articles, run1, t1);
    HeaderRow(s, texteUid, text, run1, t1);
    SavedHeader(s, texteUid, text, articles, run1, t1);
    ReSaveChanges(s1.rows[a].cols, text, run2, FinalDossier(s, texteUid, text));
    HeaderRow(s1, texteUid, text, run2, t2);
    SavedHeader(s1, texteUid, text, articles, run2, t2);
  }

  lemma OtherRowTwice(s: Store, texteUid: string, text: Entity, articles: seq<Entity>, run1: Cols, run2: Cols, t1: int, t2: int, x: Address)
    requires text.key == [texteUid] && x != TextAddress(texteUid)
    ensures var s1 := TextSaved(s, texteUid, text, articles, run1, t1);
            var s2 := TextSaved(s1, texteUid, text, articles, run2, t2);
            (x in s1.rows <==> x in s2.rows) && (x in s1.rows ==> SameRow(s1.rows[x], s2.rows[x]))
  {
    var ws := Rows(LawArticle, articles);
    var s1 := TextSaved(s, texteUid, text, articles, run1, t1);
    var h1, h2 := TextHeader(s, texteUid, text, run1, t1), TextHeader(s1, texteUid, text, run2, t2);
    HeaderLeavesOthers(s1, texteUid, text, run2, t2, x);
    RowAfter(h1, ws, t1, x);
    RowAfter(h2, ws, t2, x);
    assert Before(h1, x) + Written(ws, x) + Written(ws, x) == Before(h1, x) + Written(ws, x);
  }

  /** No row of the text, of its articles or of anything else changes content when the text is saved again. */
  lemma TextSavedTwice(s: Store, texteUid: string, text: Entity, articles: seq<Entity>, run1: Cols, run2: Cols, t1: int, t2: int)
    requires text.key == [texteUid] && IsBookkeeping(run1) && run1.Keys == run2.Keys
    ensures var s1 := TextSaved(s, texteUid, text, articles, run1, t1);
            SameContent(s1, TextSaved(s1, texteUid, text, articles, run2, t2))
  {
    var s1 := TextSaved(s, texteUid, text, articles, run1, t1);
    var s2 := TextSaved(s1, texteUid, text, articles, run2, t2);
    TextHeaderTwice(s, texteUid, text, articles, run1, run2, t1, t2);
    forall x | x != TextAddress(texteUid)
      ensures x in s1.rows <==> x in s2.rows
      ensures x in s1.rows ==> SameRow(s1.rows[x], s2.rows[x])
    {
      OtherRowTwice(s, texteUid, text, articles, run1, run2, t1, t2, x);
    }
  }

  /**
   Saving a law text again keeps its content but, because the header of a text that names no
   dossier is first written without one, moves `updated_at` exactly when the dossier is looked up and known.
   */
  lemma LawTextTimeMovesIffDossierKnown(s: Store, texteUid: string, text: Entity, articles: seq<Entity>, run1: Cols, run2: Cols, t1: int, t2: int)
    requires text.key == [texteUid] && IsBookkeeping(run1) && run1.Keys == run2.Keys
    requires var s1 := TextSaved(s, texteUid, text, articles, run1, t1);
             forall a :: a in s1.rows ==> s1.rows[a].updatedAt < t2
    ensures var s1 := TextSaved(s, texteUid, text, articles, run1, t1);
            var s2 := TextSaved(s1, texteUid, text, articles, run2, t2);
            var a := TextAddress(texteUid);
            && a in s1.rows && a in s2.rows
            && (s2.rows[a].updatedAt != s1.rows[a].updatedAt <==> OwnDossier(text) == Null && DossierOf(s, texteUid) != Null)
  {
    TextHeaderTwice(s, texteUid, text, articles, run1, run2, t1, t2);
  }
}

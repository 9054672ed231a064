/** The projections that fill and follow public.law_reading, as the loops they are. */
module ReadingProjections {
  import opened Prelude
  import opened ReadingCodes
  import opened ReadingLinks
  import AmendmentPages
  import LawTextProjection
  import BallotLinks

  /** One row per sitting of the insert into debate_law. */
  datatype LinkRow = LinkRow(debateId: int, reading: Option<int>)

  function LinkRows(p: Public, d: seq<Sitting>): seq<LinkRow> {
    if d == [] then []
    else
      var before, last := LinkRows(p, d[..|d| - 1]), d[|d| - 1];
      if last.uid in p.debates then before + [LinkRow(p.debates[last.uid], last.reading)] else before
  }

  /** One row for each sitting of the dictionary that public.debate knows, with its reading. */
  lemma {:induction false} LinkRowIsSent(p: Public, d: seq<Sitting>, i: nat)
    requires i < |d| && d[i].uid in p.debates
    ensures LinkRow(p.debates[d[i].uid], d[i].reading) in LinkRows(p, d)
    decreases |d|
  {
    var n := |d| - 1;
    if i < n {
      assert d[..n][i] == d[i];
      LinkRowIsSent(p, d[..n], i);
    } else {
      var before := LinkRows(p, d[..n]);
      assert LinkRows(p, d)[|before|] == LinkRow(p.debates[d[i].uid], d[i].reading);
    }
  }

  ghost predicate NoRepeatedDebate(rows: seq<LinkRow>) {
    forall i, j :: 0 <= i < j < |rows| ==> rows[i].debateId != rows[j].debateId
  }

  ghost predicate DistinctSittings(d: seq<Sitting>) {
    forall i, j :: 0 <= i < j < |d| ==> d[i].uid != d[j].uid
  }

  lemma HasCons(x: Sitting, s: seq<Sitting>, u: string)
    ensures Has([x] + s, u) <==> x.uid == u || Has(s, u)
  {
    var all := [x] + s;
    if x.uid == u { assert all[0].uid == u; }
    if i :| 0 <= i < |s| && s[i].uid == u { assert all[i + 1].uid == u; }
  }

  lemma {:induction false} PutIsDistinct(d: seq<Sitting>, uid: string, reading: Option<int>)
    requires DistinctSittings(d)
    ensures DistinctSittings(Put(d, uid, reading))
    ensures forall u :: Has(Put(d, uid, reading), u) <==> Has(d, u) || u == uid
  {
    var after := Put(d, uid, reading);
    if d == [] {
      assert after[0].uid == uid;
    } else if d[0].uid == uid {
      assert after[0].uid == uid && forall i :: 0 < i < |d| ==> after[i] == d[i];
    } else {
      var tail := d[1..];
      PutIsDistinct(tail, uid, reading);
      var rest := Put(tail, uid, reading);
      assert !Has(tail, d[0].uid) && !Has(rest, d[0].uid);
      forall u ensures Has(after, u) <==> Has(d, u) || u == uid {
        HasCons(d[0], tail, u);
        HasCons(d[0], rest, u);
        assert d == [d[0]] + tail;
      }
    }
  }

  lemma {:induction false} PutAllIsDistinct(d: seq<Sitting>, uids: seq<string>, reading: Option<int>)
    requires DistinctSittings(d)
    ensures DistinctSittings(PutAll(d, uids, reading))
  {
    if uids == [] {
    } else {
      PutAllIsDistinct(d, uids[..|uids| - 1], reading);
      PutIsDistinct(PutAll(d, uids[..|uids| - 1], reading), uids[|uids| - 1], reading);
    }
  }

  lemma {:induction false} FromStagesAreDistinct(stages: seq<Stage>, ids: map<string, int>)
    ensures DistinctSittings(FromStages(stages, ids))
  {
    if stages == [] {
    } else {
      var last := stages[|stages| - 1];
      FromStagesAreDistinct(stages[..|stages| - 1], ids);
      PutAllIsDistinct(FromStages(stages[..|stages| - 1], ids), last.sittings,
                       if last.uid in ids then Some(ids[last.uid]) else None);
    }
  }

  lemma {:induction false} WithAgendaIsDistinct(d: seq<Sitting>, agenda: seq<string>)
    requires DistinctSittings(d)
    ensures DistinctSittings(WithAgenda(d, agenda))
  {
    if agenda == [] {
    } else {
      WithAgendaIsDistinct(d, agenda[..|agenda| - 1]);
    }
  }

  ghost predicate IsSittingOf(p: Public, d: seq<Sitting>, debateId: int) {
    exists j :: 0 <= j < |d| && d[j].uid in p.debates && p.debates[d[j].uid] == debateId
  }

  lemma {:induction false} LinkRowsComeFromSittings(p: Public, d: seq<Sitting>, i: nat)
    requires i < |LinkRows(p, d)|
    ensures IsSittingOf(p, d, LinkRows(p, d)[i].debateId)
  {
    var init, last := d[..|d| - 1], d[|d| - 1];
    if i < |LinkRows(p, init)| {
      LinkRowsComeFromSittings(p, init, i);
      var id := LinkRows(p, init)[i].debateId;
      var j :| 0 <= j < |init| && init[j].uid in p.debates && p.debates[init[j].uid] == id;
      assert d[j] == init[j];
    } else {
      assert d[|d| - 1].uid in p.debates;
    }
  }

  /** Sittings listed once, debates with their own id: the statement never meets a link twice. */
  lemma {:induction false} LinkRowsAreDistinct(p: Public, d: seq<Sitting>)
    requires UniqueDebates(p) && DistinctSittings(d)
    ensures NoRepeatedDebate(LinkRows(p, d))
  {
    if d == [] {
    } else {
      var init, last := d[..|d| - 1], d[|d| - 1];
      LinkRowsAreDistinct(p, init);
      forall i | 0 <= i < |LinkRows(p, init)| && last.uid in p.debates
        ensures LinkRows(p, init)[i].debateId != p.debates[last.uid]
      {
        LinkRowsComeFromSittings(p, init, i);
        var id := LinkRows(p, init)[i].debateId;
        var j :| 0 <= j < |init| && init[j].uid in p.debates && p.debates[init[j].uid] == id;
        assert d[j].uid != last.uid;
      }
    }
  }

  lemma {:induction false} SameJoin(st: AmendmentPages.State, st': AmendmentPages.State, seances: seq<Seance>)
    requires st.rows == st'.rows
    ensures Joined(st, seances) == Joined(st', seances)
  {
    if seances == [] {
    } else {
      SameJoin(st, st', seances[..|seances| - 1]);
    }
  }

  /** The indexes read laws and readings only. */
  lemma {:induction false} SameIndexes(p: Public, p': Public, stages: seq<Stage>)
    requires p.laws == p'.laws && p.readings == p'.readings
    ensures AmendmentReadings(p, stages) == AmendmentReadings(p', stages)
    ensures TextReadings(p, stages) == TextReadings(p', stages)
    ensures BallotReadings(p, stages) == BallotReadings(p', stages)
  {
    if stages == [] {
    } else {
      SameIndexes(p, p', stages[..|stages| - 1]);
    }
  }

  /** A scrutin reads laws, readings and amendments only. */
  lemma SameScene(p: Public, p': Public, b: RawBallot, c: Scene)
    requires p.laws == p'.laws && p.readings == p'.readings && p.amendments.rows == p'.amendments.rows
    ensures BallotReadings(p, c.stages) == BallotReadings(p', c.stages)
    ensures Joined(p.amendments, c.seances) == Joined(p'.amendments, c.seances)
    ensures forall debateId :: BallotRow(p, b, c, debateId) == BallotRow(p', b, c, debateId)
  {
    SameIndexes(p, p', c.stages);
    SameJoin(p.amendments, p'.amendments, c.seances);
  }

  class PublicSchema {
    var db: Public

    constructor (initial: Public)
      ensures db == initial
    {
      db := initial;
    }

    method UpsertLaw(uid: string) returns (lawId: int, created: bool)
      modifies this
      ensures db == WithLaw(old(db), uid)
      ensures lawId == db.laws[uid] && (created <==> uid !in old(db).laws)
    {
      created := uid !in db.laws;
      if created {
        db := db.(laws := db.laws[uid := db.nextLaw]);
      }
      db := db.(nextLaw := db.nextLaw + 1);
      lawId := db.laws[uid];
    }

    method UpsertReading(lawId: int, stage: Stage, key: (Chamber, nat)) returns (id: int)
      requires ReadingOf(stage.code) == Some(key)
      modifies this
      ensures (db, Some(id)) == WithReading(old(db), lawId, stage)
    {
      var i := FirstMatch(db.readings, lawId, key);
      if i == |db.readings| {
        id := db.nextReading;
        db := db.(readings := db.readings + [Reading(id, lawId, key.0, key.1, stage.content)], nextReading := id + 1);
      } else {
        id := db.readings[i].id;
        db := db.(readings := db.readings[i := Reading(id, lawId, key.0, key.1, stage.content)]);
      }
    }

    method UpsertReadings(lawId: int, stages: seq<Stage>) returns (ids: map<string, int>)
      modifies this
      ensures (db, ids) == WithReadings(old(db), lawId, stages)
    {
      ids := map[];
      for k := 0 to |stages|
        invariant (db, ids) == WithReadings(old(db), lawId, stages[..k])
      {
        assert stages[..k + 1][..k] == stages[..k];
        var key := ReadingOf(stages[k].code);
        if key.Some? {
          var id := UpsertReading(lawId, stages[k], key.value);
          ids := ids[stages[k].uid := id];
        }
      }
      assert stages[..|stages|] == stages;
    }

    /** One multi-row statement; a debate id met twice would abort it. */
    method InsertLinks(lawId: int, d: seq<Sitting>)
      requires NoRepeatedDebate(LinkRows(db, d))
      modifies this
      ensures db == old(db).(debateLaw := LinkedAll(old(db), lawId, d))
    {
      for k := 0 to |d|
        invariant db == old(db).(debateLaw := LinkedAll(old(db), lawId, d[..k]))
      {
        assert d[..k + 1][..k] == d[..k];
        if d[k].uid in db.debates {
          db := db.(debateLaw := Linked(db.debateLaw, db.debates[d[k].uid], lawId, d[k].reading));
        }
      }
      assert d[..|d|] == d;
    }

    method LinkDebates(lawId: int, stages: seq<Stage>, ids: map<string, int>, agenda: seq<string>)
      requires UniqueDebates(db)
      modifies this
      ensures db == old(db).(debateLaw := LinkedAll(old(db), lawId, WithAgenda(FromStages(stages, ids), agenda)))
    {
      var sittings: seq<Sitting> := [];
      for k := 0 to |stages|
        invariant sittings == FromStages(stages[..k], ids)
      {
        assert stages[..k + 1][..k] == stages[..k];
        sittings := PutAll(sittings, stages[k].sittings, if stages[k].uid in ids then Some(ids[stages[k].uid]) else None);
      }
      assert stages[..|stages|] == stages;
      ghost var fromStages := sittings;
      for k := 0 to |agenda|
        invariant sittings == WithAgenda(fromStages, agenda[..k])
      {
        assert agenda[..k + 1][..k] == agenda[..k];
        if !Has(sittings, agenda[k]) {
          sittings := sittings + [Sitting(agenda[k], None)];
        }
      }
      assert agenda[..|agenda|] == agenda;
      FromStagesAreDistinct(stages, ids);
      WithAgendaIsDistinct(fromStages, agenda);
      LinkRowsAreDistinct(db, sittings);
      InsertLinks(lawId, sittings);
    }

    method ProjectLaw(d: Dossier) returns (created: bool)
      requires Inv(db) && d.isLaw
      modifies this
      ensures db == LawProjected(old(db), d) && Inv(db) && Keeps(old(db), db)
      ensures created <==> d.uid !in old(db).laws
    {
      LawKeeps(db, d);
      var lawId;
      lawId, created := UpsertLaw(d.uid);
      assert Inv(db);
      ReadingsKeep(db, lawId, d.stages);
      var ids := UpsertReadings(lawId, d.stages);
      LinkDebates(lawId, d.stages, ids, d.agendaUids);
    }

    method ProjectLaws(ds: seq<Dossier>) returns (created: nat, updated: nat, skipped: nat)
      requires Inv(db)
      modifies this
      ensures db == LawsProjected(old(db), ds) && Inv(db) && Keeps(old(db), db)
      ensures created + updated + skipped == |ds|
    {
      created, updated, skipped := 0, 0, 0;
      for k := 0 to |ds|
        invariant db == LawsProjected(old(db), ds[..k]) && Inv(db)
        invariant created + updated + skipped == k
      {
        assert ds[..k + 1][..k] == ds[..k];
        if !ds[k].isLaw {
          skipped := skipped + 1;
        } else {
          var isNew := ProjectLaw(ds[k]);
          if isNew { created := created + 1; } else { updated := updated + 1; }
        }
      }
      assert ds[..|ds|] == ds;
      LawsKeep(old(db), ds);
    }

    /** `_readings` of the amendment projection. */
    method AmendmentIndex(stages: seq<Stage>) returns (m: map<(int, string), int>)
      ensures m == AmendmentReadings(db, stages)
    {
      m := map[];
      for k := 0 to |stages|
        invariant m == AmendmentReadings(db, stages[..k])
      {
        assert stages[..k + 1][..k] == stages[..k];
        var s := stages[k];
        if s.dossier in db.laws && ReadingOf(s.code).Some? {
          var lawId := db.laws[s.dossier];
          var rid := IdOf(db.readings, lawId, ReadingOf(s.code).value);
          if rid.Some? {
            m := PutTexte(PutTexte(m, lawId, s.texte, rid.value), lawId, s.commissionTexte, rid.value);
          }
        }
      }
      assert stages[..|stages|] == stages;
    }

    /** `_readings` of the law-text projection: an absent reading is stored as None. */
    method TextIndex(stages: seq<Stage>) returns (m: map<(Option<string>, string), Option<int>>)
      ensures m == TextReadings(db, stages)
    {
      m := map[];
      for k := 0 to |stages|
        invariant m == TextReadings(db, stages[..k])
      {
        assert stages[..k + 1][..k] == stages[..k];
        var s := stages[k];
        if s.dossier in db.laws && ReadingOf(s.code).Some? {
          var rid := IdOf(db.readings, db.laws[s.dossier], ReadingOf(s.code).value);
          m := PutText(PutText(PutText(m, s.dossier, s.texte, rid), s.dossier, s.commissionTexte, rid), s.dossier, s.adoptedTexte, rid);
        }
      }
      assert stages[..|stages|] == stages;
    }

    /** `_load_readings` of the ballot projection. */
    method BallotIndex(stages: seq<Stage>) returns (m: map<(string, string), StageReading>)
      ensures m == BallotReadings(db, stages)
    {
      m := map[];
      for k := 0 to |stages|
        invariant m == BallotReadings(db, stages[..k])
      {
        assert stages[..k + 1][..k] == stages[..k];
        var s := stages[k];
        if s.dossier in db.laws && ReadingOf(s.code).Some? {
          var rid := IdOf(db.readings, db.laws[s.dossier], ReadingOf(s.code).value);
          if rid.Some? {
            m := PutSittings(m, s.dossier, s.sittings, StageReading(rid.value, TextesOf(s)));
          }
        }
      }
      assert stages[..|stages|] == stages;
    }

    /** `_project_one`: law, then reading and its texts, then amendment on one of them. */
    method ProjectBallot(b: RawBallot, debateId: int, readings: map<(string, string), StageReading>, lookups: BallotLinks.Lookups, c: Scene)
      requires readings == BallotReadings(db, c.stages) && lookups.Agrees(Joined(db.amendments, c.seances))
      modifies this
      ensures db == old(db).(ballots := old(db).ballots[b.uid := BallotRow(old(db), b, c, debateId)])
    {
      var dossier := BallotLinks.LawFor(b.dossier, c.listing(b.refs * db.laws.Keys), db.laws, c.titles, b.title);
      var lawId, readingId, textes := None, None, {};
      if dossier.Some? {
        if dossier.value in db.laws {
          lawId := Some(db.laws[dossier.value]);
        }
        if (dossier.value, b.agendaUid) in readings {
          var stage := readings[(dossier.value, b.agendaUid)];
          readingId, textes := Some(stage.id), stage.textes;
        }
      }
      var hit := lookups.AmendmentFor(b.number, b.day, c.listing(textes), Joined(db.amendments, c.seances));
      db := db.(ballots := db.ballots[b.uid := Ballot(lawId, readingId, if hit.Some? then Some(hit.value.id) else None, debateId)]);
    }

    // The last three projections are the runs `Amendments`, `Texts` and `Ballots` of ReadingLinks.After,
    // so ReadingLinks.RunKeeps speaks of them.

    method ProjectAmendments(raw: AmendmentPages.RawTable, legislature: int, stages: seq<Stage>,
                             deputies: map<string, int>, groups: map<string, int>, page: nat)
      requires AmendmentPages.ValidRaw(raw) && page > 0
      modifies this
      ensures db == AmendmentsProjected(old(db), AmendmentPages.Selected(raw, legislature), stages, deputies, groups)
    {
      var readings := AmendmentIndex(stages);
      var run := new AmendmentPages.AmendmentProjection(db.amendments);
      run.ProjectAll(raw, legislature, AmendmentPages.Lookups(db.laws, deputies, groups, readings), page);
      db := db.(amendments := run.table);
    }

    method ProjectTexts(raw: seq<LawTextProjection.RawText>, legislature: int, stages: seq<Stage>, numbers: map<string, Option<int>>)
      modifies this
      ensures db == TextsProjected(old(db), raw, legislature, stages, numbers)
    {
      var readings := TextIndex(stages);
      var l := LawTextProjection.Lookups(db.laws, readings, numbers);
      var run := new LawTextProjection.LawTexts(db.texts);
      run.ProjectAll(raw, legislature, l);
      db := db.(texts := run.state);
    }

    method ProjectBallots(bs: seq<RawBallot>, c: Scene) returns (projected: nat, skipped: nat)
      modifies this
      ensures db == BallotsProjected(old(db), bs, c)
      ensures projected + skipped == |bs|
    {
      var readings := BallotIndex(c.stages);
      var lookups := new BallotLinks.Lookups();
      lookups.Load(Joined(db.amendments, c.seances));
      projected, skipped := 0, 0;
      ghost var start := db;
      for k := 0 to |bs|
        invariant db == BallotsProjected(start, bs[..k], c)
        invariant db == start.(ballots := db.ballots)
        invariant projected + skipped == k
        invariant lookups.Agrees(Joined(start.amendments, c.seances))
      {
        assert bs[..k + 1][..k] == bs[..k];
        if bs[k].agendaUid !in db.debates {
          skipped := skipped + 1;
        } else {
          SameScene(start, db, bs[k], c);
          ProjectBallot(bs[k], db.debates[bs[k].agendaUid], readings, lookups, c);
          projected := projected + 1;
        }
      }
      assert bs[..|bs|] == bs;
    }
  }

  // ---------------------------------------------------------------- projecting a law again

  ghost predicate Stored(rs: seq<Reading>, lawId: int, key: (Chamber, nat)) {
    exists i :: 0 <= i < |rs| && Matches(rs[i], lawId, key)
  }

  ghost predicate AllStored(rs: seq<Reading>, lawId: int, stages: seq<Stage>) {
    forall s :: s in stages && ReadingOf(s.code).Some? ==> Stored(rs, lawId, ReadingOf(s.code).value)
  }

  lemma StoredStays(p: Public, lawId: int, stage: Stage, l: int, key: (Chamber, nat))
    requires Stored(p.readings, l, key)
    ensures Stored(WithReading(p, lawId, stage).0.readings, l, key)
  {
    var i :| 0 <= i < |p.readings| && Matches(p.readings[i], l, key);
    assert Matches(WithReading(p, lawId, stage).0.readings[i], l, key);
  }

  lemma ReadingIsStored(p: Public, lawId: int, stage: Stage)
    requires ReadingOf(stage.code).Some?
    ensures Stored(WithReading(p, lawId, stage).0.readings, lawId, ReadingOf(stage.code).value)
  {
    var key := ReadingOf(stage.code).value;
    var i := FirstMatch(p.readings, lawId, key);
    assert Matches(WithReading(p, lawId, stage).0.readings[i], lawId, key);
  }

  /** After a run every reading stage of the law has its row. */
  lemma {:induction false} ReadingsAreStored(p: Public, lawId: int, stages: seq<Stage>)
    ensures AllStored(WithReadings(p, lawId, stages).0.readings, lawId, stages)
  {
    if stages == [] {
    } else {
      var init, last := stages[..|stages| - 1], stages[|stages| - 1];
      ReadingsAreStored(p, lawId, init);
      var mid := WithReadings(p, lawId, init).0;
      forall s | s in stages && ReadingOf(s.code).Some?
        ensures Stored(WithReading(mid, lawId, last).0.readings, lawId, ReadingOf(s.code).value)
      {
        if s in init { StoredStays(mid, lawId, last, lawId, ReadingOf(s.code).value); } else { ReadingIsStored(mid, lawId, last); }
      }
    }
  }

  /** Over stored readings a run inserts nothing and moves no id, law, chamber or number. */
  ghost predicate SameIdentities(rs: seq<Reading>, rs': seq<Reading>) {
    |rs| == |rs'| && forall i :: 0 <= i < |rs| ==> rs'[i] == rs[i].(content := rs'[i].content)
  }

  lemma {:induction false} StoredReadingsAreFound(p: Public, lawId: int, stages: seq<Stage>)
    requires AllStored(p.readings, lawId, stages)
    ensures SameIdentities(p.readings, WithReadings(p, lawId, stages).0.readings)
  {
    if stages == [] {
    } else {
      var init, last := stages[..|stages| - 1], stages[|stages| - 1];
      assert last in stages && forall s :: s in init ==> s in stages;
      StoredReadingsAreFound(p, lawId, init);
      var mid := WithReadings(p, lawId, init).0;
      if ReadingOf(last.code).Some? {
        var key := ReadingOf(last.code).value;
        var i :| 0 <= i < |p.readings| && Matches(p.readings[i], lawId, key);
        assert Matches(mid.readings[i], lawId, key);
      }
    }
  }

  /** Projecting the readings of a law a second time creates none. */
  lemma SecondRunAddsNoReading(p: Public, lawId: int, stages: seq<Stage>)
    ensures var once := WithReadings(p, lawId, stages).0;
            SameIdentities(once.readings, WithReadings(once, lawId, stages).0.readings)
  {
    ReadingsAreStored(p, lawId, stages);
    StoredReadingsAreFound(WithReadings(p, lawId, stages).0, lawId, stages);
  }
}

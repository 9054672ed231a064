/** What the law projection leaves in public.debate_law: each sitting linked to the right reading. */
module SittingLinks {
  import opened Prelude
  import opened ReadingCodes
  import opened LastWins
  import opened ReadingLinks
  import opened ReadingProjections

  // ---------------------------------------------------------------- the dictionary of sittings

  /** What the dictionary holds for a sitting. */
  function Find(d: seq<Sitting>, uid: string): Option<Option<int>> {
    if d == [] then None else if d[0].uid == uid then Some(d[0].reading) else Find(d[1..], uid)
  }

  lemma {:induction false} FindIsThere(d: seq<Sitting>, uid: string)
    ensures Has(d, uid) <==> Find(d, uid).Some?
    ensures Find(d, uid).Some? ==> exists i :: 0 <= i < |d| && d[i] == Sitting(uid, Find(d, uid).value)
  {
    if d == [] {
    } else {
      assert d == [d[0]] + d[1..];
      HasCons(d[0], d[1..], uid);
      if d[0].uid == uid {
        assert d[0] == Sitting(uid, Find(d, uid).value);
      } else {
        FindIsThere(d[1..], uid);
        if Find(d[1..], uid).Some? {
          var i :| 0 <= i < |d| - 1 && d[1..][i] == Sitting(uid, Find(d[1..], uid).value);
          assert d[i + 1] == d[1..][i];
        }
      }
    }
  }

  lemma {:induction false} FindAppend(d: seq<Sitting>, x: Sitting, uid: string)
    ensures Find(d + [x], uid) == if Find(d, uid).Some? then Find(d, uid) else if x.uid == uid then Some(x.reading) else None
  {
    if d == [] {
      assert d + [x] == [x] && [x][1..] == [];
    } else {
      assert (d + [x])[1..] == d[1..] + [x];
      FindAppend(d[1..], x, uid);
    }
  }

  lemma {:induction false} PutIs(d: seq<Sitting>, uid: string, reading: Option<int>, u: string)
    ensures Find(Put(d, uid, reading), u) == if u == uid then Some(reading) else Find(d, u)
  {
    if d == [] {
    } else if d[0].uid == uid {
      assert ([Sitting(uid, reading)] + d[1..])[1..] == d[1..];
    } else {
      assert ([d[0]] + Put(d[1..], uid, reading))[1..] == Put(d[1..], uid, reading);
      PutIs(d[1..], uid, reading, u);
    }
  }

  lemma {:induction false} PutAllIs(d: seq<Sitting>, uids: seq<string>, reading: Option<int>, u: string)
    ensures Find(PutAll(d, uids, reading), u) == if u in uids then Some(reading) else Find(d, u)
  {
    if uids == [] {
    } else {
      var init, last := uids[..|uids| - 1], uids[|uids| - 1];
      PutAllIs(d, init, reading, u);
      PutIs(PutAll(d, init, reading), last, reading, u);
      assert u in uids <==> u in init || u == last;
    }
  }

  function ReadingIdOf(s: Stage, ids: map<string, int>): Option<int> {
    if s.uid in ids then Some(ids[s.uid]) else None
  }

  /** A stage gives its reading to the sittings it names. */
  function Names(ids: map<string, int>): Says<Stage, string, Option<int>> {
    (s: Stage, ref: string) => if ref in s.sittings then Some(ReadingIdOf(s, ids)) else None
  }

  /** A sitting that several stages name belongs to the last one of them. */
  lemma {:induction false} LastStageNames(stages: seq<Stage>, ids: map<string, int>, ref: string)
    ensures Find(FromStages(stages, ids), ref) == LastAnswer(Names(ids), stages, ref)
  {
    if stages == [] {
    } else {
      var init, last := stages[..|stages| - 1], stages[|stages| - 1];
      LastStageNames(init, ids, ref);
      PutAllIs(FromStages(init, ids), last.sittings, ReadingIdOf(last, ids), ref);
    }
  }

  /** The agenda only adds sittings that no stage names, without a reading. */
  lemma {:induction false} AgendaAdds(d: seq<Sitting>, agenda: seq<string>, u: string)
    ensures Find(WithAgenda(d, agenda), u) == if Find(d, u).Some? then Find(d, u) else if u in agenda then Some(None) else None
  {
    if agenda == [] {
    } else {
      var init, last := agenda[..|agenda| - 1], agenda[|agenda| - 1];
      AgendaAdds(d, init, u);
      var before := WithAgenda(d, init);
      FindIsThere(before, last);
      FindAppend(before, Sitting(last, None), u);
      assert u in agenda <==> u in init || u == last;
    }
  }

  /** The dictionary a law's links are made from. */
  function SittingsOf(d: Dossier, ids: map<string, int>): seq<Sitting> { WithAgenda(FromStages(d.stages, ids), d.agendaUids) }

  lemma SittingsAreDistinct(d: Dossier, ids: map<string, int>)
    ensures DistinctSittings(SittingsOf(d, ids))
  {
    FromStagesAreDistinct(d.stages, ids);
    WithAgendaIsDistinct(FromStages(d.stages, ids), d.agendaUids);
  }

  // ---------------------------------------------------------------- the links

  /** No other link moves: not those of other laws, nor those of sittings that are not listed. */
  lemma {:induction false} OtherLinksStay(p: Public, lawId: int, d: seq<Sitting>, key: (int, int))
    requires key.1 != lawId || forall j :: 0 <= j < |d| && d[j].uid in p.debates ==> p.debates[d[j].uid] != key.0
    ensures key in LinkedAll(p, lawId, d) <==> key in p.debateLaw
    ensures key in p.debateLaw ==> LinkedAll(p, lawId, d)[key] == p.debateLaw[key]
  {
    if d == [] {
    } else {
      var init := d[..|d| - 1];
      assert forall j :: 0 <= j < |init| ==> init[j] == d[j];
      OtherLinksStay(p, lawId, init, key);
    }
  }

  /** A link takes the reading of its sitting when one is known, and otherwise stays what it was. */
  lemma {:induction false} EachSittingIsLinked(p: Public, lawId: int, d: seq<Sitting>, i: nat)
    requires UniqueDebates(p) && DistinctSittings(d) && i < |d| && d[i].uid in p.debates
    ensures var key, links := (p.debates[d[i].uid], lawId), LinkedAll(p, lawId, d);
            && key in links
            && links[key] == if d[i].reading.Some? then d[i].reading
                             else if key in p.debateLaw then p.debateLaw[key] else None
    decreases |d|
  {
    var init, last := d[..|d| - 1], d[|d| - 1];
    if i < |init| {
      assert init[i] == d[i] && d[i].uid != last.uid;
      EachSittingIsLinked(p, lawId, init, i);
    } else {
      forall j | 0 <= j < |init| ensures init[j].uid != last.uid { assert d[j].uid != d[|d| - 1].uid; }
      OtherLinksStay(p, lawId, init, (p.debates[last.uid], lawId));
    }
  }

  // ---------------------------------------------------------------- the ids of the readings

  /** Row `id` is the reading of that law, chamber and number. */
  ghost predicate IsReadingRow(rs: seq<Reading>, lawId: int, key: (Chamber, nat), id: int) {
    exists i :: 0 <= i < |rs| && rs[i].id == id && Matches(rs[i], lawId, key)
  }

  lemma ReadingStays(p: Public, lawId: int, stage: Stage, l: int, key: (Chamber, nat), id: int)
    requires IsReadingRow(p.readings, l, key, id)
    ensures IsReadingRow(WithReading(p, lawId, stage).0.readings, l, key, id)
  {
    var i :| 0 <= i < |p.readings| && p.readings[i].id == id && Matches(p.readings[i], l, key);
    var after := WithReading(p, lawId, stage).0.readings;
    assert after[i].id == id && Matches(after[i], l, key);
  }

  lemma NewIdIsReading(p: Public, lawId: int, stage: Stage)
    requires ReadingOf(stage.code).Some?
    ensures var (after, id) := WithReading(p, lawId, stage);
            id.Some? && IsReadingRow(after.readings, lawId, ReadingOf(stage.code).value, id.value)
  {
    var i := FirstMatch(p.readings, lawId, ReadingOf(stage.code).value);
    var (after, id) := WithReading(p, lawId, stage);
    assert after.readings[i].id == id.value && Matches(after.readings[i], lawId, ReadingOf(stage.code).value);
  }

  /** A stage claims its uid for the reading of its code. */
  function Claims(): Says<Stage, string, (Chamber, nat)> {
    (s: Stage, uid: string) => if s.uid == uid then ReadingOf(s.code) else None
  }

  /** The chamber and number of a stage uid. */
  function KeyOfUid(stages: seq<Stage>, uid: string): Option<(Chamber, nat)> { LastAnswer(Claims(), stages, uid) }

  /** The dictionary of ids sends each uid to the row of its chamber and number. */
  lemma {:induction false} IdsAre(p: Public, lawId: int, stages: seq<Stage>, uid: string)
    ensures var (after, ids) := WithReadings(p, lawId, stages);
            && (uid in ids <==> KeyOfUid(stages, uid).Some?)
            && (uid in ids ==> IsReadingRow(after.readings, lawId, KeyOfUid(stages, uid).value, ids[uid]))
  {
    if stages == [] {
    } else {
      var init, last := stages[..|stages| - 1], stages[|stages| - 1];
      IdsAre(p, lawId, init, uid);
      var (before, ids) := WithReadings(p, lawId, init);
      if last.uid == uid && ReadingOf(last.code).Some? {
        NewIdIsReading(before, lawId, last);
      } else if uid in ids {
        ReadingStays(before, lawId, last, lawId, KeyOfUid(init, uid).value, ids[uid]);
      }
    }
  }

  ghost predicate DistinctStages(stages: seq<Stage>) {
    forall i, j :: 0 <= i < j < |stages| ==> stages[i].uid != stages[j].uid
  }

  lemma {:induction false} OwnKey(stages: seq<Stage>, s: Stage)
    requires DistinctStages(stages) && s in stages
    ensures KeyOfUid(stages, s.uid) == ReadingOf(s.code)
  {
    var init, last := stages[..|stages| - 1], stages[|stages| - 1];
    if last.uid == s.uid {
      var k :| 0 <= k < |stages| && stages[k] == s;
      forall t | t in init ensures Claims()(t, s.uid).None? { var j :| 0 <= j < |init| && stages[j] == t; }
      SilentRows(Claims(), init, s.uid);
    } else {
      OwnKey(init, s);
    }
  }

  /** The dictionary sends each reading stage to the row of its chamber and number. */
  lemma StageHasItsReading(p: Public, lawId: int, stages: seq<Stage>, s: Stage)
    requires DistinctStages(stages) && s in stages && ReadingOf(s.code).Some?
    ensures var (after, ids) := WithReadings(p, lawId, stages);
            s.uid in ids && IsReadingRow(after.readings, lawId, ReadingOf(s.code).value, ids[s.uid])
  {
    OwnKey(stages, s);
    IdsAre(p, lawId, stages, s.uid);
  }

  lemma OneKeyPerId(p: Public, lawId: int, a: (Chamber, nat), b: (Chamber, nat), id: int, other: int)
    requires UniqueReadings(p) && IsReadingRow(p.readings, lawId, a, id) && IsReadingRow(p.readings, lawId, b, other)
    ensures id == other <==> a == b
  {
    var i :| 0 <= i < |p.readings| && p.readings[i].id == id && Matches(p.readings[i], lawId, a);
    var j :| 0 <= j < |p.readings| && p.readings[j].id == other && Matches(p.readings[j], lawId, b);
    if id == other { assert !(i < j) && !(j < i); }
    if a == b { assert !(i < j) && !(j < i); }
  }

  /**
   Two reading stages of a law share a row of public.law_reading exactly when they have one code, or
   those of a first and a single reading of one chamber.
   */
  lemma StagesShareARowIff(p: Public, lawId: int, stages: seq<Stage>, s: Stage, t: Stage)
    requires Inv(p) && DistinctStages(stages) && s in stages && t in stages
    requires s.code in READING_CODES && t.code in READING_CODES
    ensures var ids := WithReadings(p, lawId, stages).1;
            s.uid in ids && t.uid in ids && (ids[s.uid] == ids[t.uid] <==> s.code == t.code || Siblings(s.code, t.code))
  {
    ReadingCodesAgree(s.code);
    ReadingCodesAgree(t.code);
    ReadingsKeep(p, lawId, stages);
    StageHasItsReading(p, lawId, stages, s);
    StageHasItsReading(p, lawId, stages, t);
    SameReadingIff(s.code, t.code);
    var (after, ids) := WithReadings(p, lawId, stages);
    OneKeyPerId(after, lawId, ReadingOf(s.code).value, ReadingOf(t.code).value, ids[s.uid], ids[t.uid]);
  }

  // ---------------------------------------------------------------- the whole projection of a law

  lemma {:induction false} ReadingsLeaveTheRest(p: Public, lawId: int, stages: seq<Stage>)
    ensures var after := WithReadings(p, lawId, stages).0;
            after == p.(readings := after.readings, nextReading := after.nextReading)
  {
    if stages == [] {
    } else {
      ReadingsLeaveTheRest(p, lawId, stages[..|stages| - 1]);
    }
  }

  /** The link that projecting a law leaves for a sitting of its dictionary. */
  lemma SittingIsLinked(p: Public, d: Dossier, ref: string)
    requires UniqueDebates(p) && d.isLaw && ref in p.debates
    ensures var (p2, ids) := WithReadings(WithLaw(p, d.uid), WithLaw(p, d.uid).laws[d.uid], d.stages);
            var after, found := LawProjected(p, d), Find(SittingsOf(d, ids), ref);
            && after.readings == p2.readings && d.uid in after.laws && after.laws == WithLaw(p, d.uid).laws
            && (found.Some? ==> (p.debates[ref], after.laws[d.uid]) in after.debateLaw)
            && (found.Some? && found.value.Some? ==> after.debateLaw[(p.debates[ref], after.laws[d.uid])] == found.value)
  {
    var p1 := WithLaw(p, d.uid);
    var lawId := p1.laws[d.uid];
    var (p2, ids) := WithReadings(p1, lawId, d.stages);
    ReadingsLeaveTheRest(p1, lawId, d.stages);
    var sittings := SittingsOf(d, ids);
    SittingsAreDistinct(d, ids);
    FindIsThere(sittings, ref);
    if Find(sittings, ref).Some? {
      var i :| 0 <= i < |sittings| && sittings[i] == Sitting(ref, Find(sittings, ref).value);
      EachSittingIsLinked(p2, lawId, sittings, i);
    }
  }

  /**
   A sitting of a reading stage that public.debate knows ends linked to the law, with the
   row of exactly that stage's chamber and number, whatever the link said before.
   */
  lemma SittingIsLinkedToItsReading(p: Public, d: Dossier, k: nat, ref: string)
    requires UniqueDebates(p) && d.isLaw && DistinctStages(d.stages)
    requires k < |d.stages| && ReadingOf(d.stages[k].code).Some? && ref in p.debates
    requires ref in d.stages[k].sittings && forall j :: k < j < |d.stages| ==> ref !in d.stages[j].sittings
    ensures var after := LawProjected(p, d);
            && d.uid in after.laws && (p.debates[ref], after.laws[d.uid]) in after.debateLaw
            && after.debateLaw[(p.debates[ref], after.laws[d.uid])].Some?
            && IsReadingRow(after.readings, after.laws[d.uid], ReadingOf(d.stages[k].code).value,
                         after.debateLaw[(p.debates[ref], after.laws[d.uid])].value)
  {
    var p1 := WithLaw(p, d.uid);
    var ids := WithReadings(p1, p1.laws[d.uid], d.stages).1;
    StageHasItsReading(p1, p1.laws[d.uid], d.stages, d.stages[k]);
    AnswerOfLast(Names(ids), d.stages, ref, k);
    LastStageNames(d.stages, ids, ref);
    AgendaAdds(FromStages(d.stages, ids), d.agendaUids, ref);
    SittingIsLinked(p, d, ref);
  }

  /** A sitting whose agenda lists the dossier is linked too, even if no stage names it. */
  lemma AgendaSittingIsLinked(p: Public, d: Dossier, ref: string)
    requires UniqueDebates(p) && d.isLaw && ref in d.agendaUids && ref in p.debates
    ensures var after := LawProjected(p, d);
            d.uid in after.laws && (p.debates[ref], after.laws[d.uid]) in after.debateLaw
  {
    var p1 := WithLaw(p, d.uid);
    var ids := WithReadings(p1, p1.laws[d.uid], d.stages).1;
    AgendaAdds(FromStages(d.stages, ids), d.agendaUids, ref);
    SittingIsLinked(p, d, ref);
  }

  /** Projecting a law never touches the links of another law. */
  lemma LinksOfOtherLawsStay(p: Public, d: Dossier, key: (int, int))
    requires d.isLaw && key.1 != WithLaw(p, d.uid).laws[d.uid]
    ensures var after := LawProjected(p, d);
            && (key in after.debateLaw <==> key in p.debateLaw)
            && (key in p.debateLaw ==> after.debateLaw[key] == p.debateLaw[key])
  {
    var p1 := WithLaw(p, d.uid);
    var lawId := p1.laws[d.uid];
    var (p2, ids) := WithReadings(p1, lawId, d.stages);
    ReadingsLeaveTheRest(p1, lawId, d.stages);
    OtherLinksStay(p2, lawId, WithAgenda(FromStages(d.stages, ids), d.agendaUids), key);
  }
}

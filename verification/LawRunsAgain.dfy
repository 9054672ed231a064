/** What runs of the law projection leave in law_reading and debate_law, and when a second run changes nothing. */
module LawRunsAgain {
  import opened Prelude
  import opened ReadingCodes
  import opened LastWins
  import opened ReadingLinks
  import opened ReadingProjections
  import opened SittingLinks

  lemma LawLeavesTheRest(p: Public, d: Dossier)
    ensures var after := LawProjected(p, d);
            && after.debates == p.debates && after.nextDebate == p.nextDebate
            && after.amendments == p.amendments && after.texts == p.texts && after.ballots == p.ballots
            && after.laws == (if d.isLaw then WithLaw(p, d.uid).laws else p.laws)
            && after.readings == (if d.isLaw then WithReadings(WithLaw(p, d.uid), WithLaw(p, d.uid).laws[d.uid], d.stages).0.readings else p.readings)
  {
    if d.isLaw {
      ReadingsLeaveTheRest(WithLaw(p, d.uid), WithLaw(p, d.uid).laws[d.uid], d.stages);
    }
  }

  lemma {:induction false} LawsLeaveTheRest(p: Public, ds: seq<Dossier>)
    ensures var after := LawsProjected(p, ds);
            && after.debates == p.debates && after.nextDebate == p.nextDebate
            && after.amendments == p.amendments && after.texts == p.texts && after.ballots == p.ballots
            && (forall d :: d in p.laws ==> d in after.laws && after.laws[d] == p.laws[d])
            && (forall d :: d in ds && d.isLaw ==> d.uid in after.laws)
  {
    if ds == [] {
    } else {
      var init, last := ds[..|ds| - 1], ds[|ds| - 1];
      LawsLeaveTheRest(p, init);
      LawLeavesTheRest(LawsProjected(p, init), last);
      assert forall d :: d in ds <==> d in init || d == last;
    }
  }

  // ---------------------------------------------------------------- rows of law_reading keep their identity

  ghost predicate RowsIn(rs: seq<Reading>, rs': seq<Reading>) {
    forall l, key, id :: IsReadingRow(rs, l, key, id) ==> IsReadingRow(rs', l, key, id)
  }

  lemma {:induction false} ReadingsStay(p: Public, lawId: int, stages: seq<Stage>)
    ensures RowsIn(p.readings, WithReadings(p, lawId, stages).0.readings)
  {
    if stages == [] {
    } else {
      var init := stages[..|stages| - 1];
      ReadingsStay(p, lawId, init);
      var mid := WithReadings(p, lawId, init).0;
      forall l, key, id | IsReadingRow(mid.readings, l, key, id)
        ensures IsReadingRow(WithReading(mid, lawId, stages[|stages| - 1]).0.readings, l, key, id)
      {
        ReadingStays(mid, lawId, stages[|stages| - 1], l, key, id);
      }
    }
  }

  lemma {:induction false} LawsRowsStay(p: Public, ds: seq<Dossier>)
    ensures RowsIn(p.readings, LawsProjected(p, ds).readings)
  {
    if ds == [] {
    } else {
      var init, last := ds[..|ds| - 1], ds[|ds| - 1];
      LawsRowsStay(p, init);
      var mid := LawsProjected(p, init);
      LawLeavesTheRest(mid, last);
      if last.isLaw { ReadingsStay(WithLaw(mid, last.uid), WithLaw(mid, last.uid).laws[last.uid], last.stages); }
    }
  }

  lemma SameIdentitiesSameRows(rs: seq<Reading>, rs': seq<Reading>)
    requires SameIdentities(rs, rs')
    ensures RowsIn(rs, rs') && RowsIn(rs', rs)
  {
    forall l, key, id | IsReadingRow(rs, l, key, id) ensures IsReadingRow(rs', l, key, id) {
      var i :| 0 <= i < |rs| && rs[i].id == id && Matches(rs[i], l, key);
      assert rs'[i].id == id && Matches(rs'[i], l, key);
    }
    forall l, key, id | IsReadingRow(rs', l, key, id) ensures IsReadingRow(rs, l, key, id) {
      var i :| 0 <= i < |rs'| && rs'[i].id == id && Matches(rs'[i], l, key);
      assert rs[i].id == id && Matches(rs[i], l, key);
    }
  }

  lemma OneRowPerKey(p: Public, l: int, key: (Chamber, nat), id: int, id': int)
    requires UniqueReadings(p) && IsReadingRow(p.readings, l, key, id) && IsReadingRow(p.readings, l, key, id')
    ensures id == id'
  {
    var i :| 0 <= i < |p.readings| && p.readings[i].id == id && Matches(p.readings[i], l, key);
    var j :| 0 <= j < |p.readings| && p.readings[j].id == id' && Matches(p.readings[j], l, key);
    assert !(i < j) && !(j < i);
  }

  // ---------------------------------------------------------------- contents of law_reading

  /** What a stage says of a reading. */
  function Contents(): Says<Stage, (Chamber, nat), string> {
    (s: Stage, key: (Chamber, nat)) => if ReadingOf(s.code) == Some(key) then Some(s.content) else None
  }

  predicate IsDossierOf(laws: map<string, int>, d: Dossier, lawId: int) { d.isLaw && Get(laws, d.uid) == Some(lawId) }

  /** What a dossier of a run says of a reading of a law: what its last stage does. */
  function DossierContents(laws: map<string, int>): Says<Dossier, (int, (Chamber, nat)), string> {
    (d: Dossier, k: (int, (Chamber, nat))) => if IsDossierOf(laws, d, k.0) then LastAnswer(Contents(), d.stages, k.1) else None
  }

  function KeyOf(r: Reading): (Chamber, nat) { (r.chamber, r.number) }

  /** Row `i` carries what was said, or is what it was. */
  ghost predicate RowSays(before: seq<Reading>, after: seq<Reading>, i: nat, said: Option<string>)
    requires i < |after|
  {
    if said.Some? then after[i].content == said.value else i < |before| && after[i] == before[i]
  }

  lemma OneMatch(p: Public, lawId: int, key: (Chamber, nat), k: nat, i: nat)
    requires UniqueReadings(p) && k < |p.readings| && i < |p.readings|
    requires Matches(p.readings[k], lawId, key) && Matches(p.readings[i], lawId, key)
    ensures k == i
  {
    assert !(k < i) && !(i < k);
  }

  lemma OneReadingSays(p: Public, lawId: int, stage: Stage, i: nat)
    requires UniqueReadings(p) && i < |WithReading(p, lawId, stage).0.readings|
    ensures var after := WithReading(p, lawId, stage).0.readings;
            RowSays(p.readings, after, i,
                 if after[i].lawId == lawId && ReadingOf(stage.code) == Some(KeyOf(after[i])) then Some(stage.content) else None)
  {
    if ReadingOf(stage.code).Some? {
      var key := ReadingOf(stage.code).value;
      var k := FirstMatch(p.readings, lawId, key);
      if k < |p.readings| && Matches(p.readings[i], lawId, key) { OneMatch(p, lawId, key, k, i); }
    }
  }

  lemma {:induction false} ReadingsSay(p: Public, lawId: int, stages: seq<Stage>, i: nat)
    requires Inv(p) && i < |WithReadings(p, lawId, stages).0.readings|
    ensures var after := WithReadings(p, lawId, stages).0.readings;
            RowSays(p.readings, after, i, if after[i].lawId == lawId then LastAnswer(Contents(), stages, KeyOf(after[i])) else None)
  {
    if stages == [] {
    } else {
      var init, last := stages[..|stages| - 1], stages[|stages| - 1];
      ReadingsKeep(p, lawId, init);
      var mid := WithReadings(p, lawId, init).0;
      OneReadingSays(mid, lawId, last, i);
      var after := WithReading(mid, lawId, last).0.readings;
      if i < |mid.readings| && after[i] == mid.readings[i] { ReadingsSay(p, lawId, init, i); }
    }
  }

  lemma LawSays(p: Public, d: Dossier, laws: map<string, int>, i: nat)
    requires Inv(p) && i < |LawProjected(p, d).readings|
    requires forall u :: u in LawProjected(p, d).laws ==> u in laws && laws[u] == LawProjected(p, d).laws[u]
    ensures var after := LawProjected(p, d).readings;
            RowSays(p.readings, after, i,
                 DossierContents(laws)(d, (after[i].lawId, KeyOf(after[i]))))
  {
    LawLeavesTheRest(p, d);
    if d.isLaw {
      assert Inv(WithLaw(p, d.uid));
      ReadingsSay(WithLaw(p, d.uid), WithLaw(p, d.uid).laws[d.uid], d.stages, i);
    }
  }

  lemma {:induction false} LawsSay(p: Public, ds: seq<Dossier>, laws: map<string, int>, i: nat)
    requires Inv(p) && i < |LawsProjected(p, ds).readings|
    requires forall d :: d in LawsProjected(p, ds).laws ==> d in laws && laws[d] == LawsProjected(p, ds).laws[d]
    ensures var after := LawsProjected(p, ds).readings;
            RowSays(p.readings, after, i, LastAnswer(DossierContents(laws), ds, (after[i].lawId, KeyOf(after[i]))))
  {
    if ds == [] {
    } else {
      var init, last := ds[..|ds| - 1], ds[|ds| - 1];
      var mid := LawsProjected(p, init);
      LawsKeep(p, init);
      LawKeeps(mid, last);
      LawSays(mid, last, laws, i);
      var after := LawsProjected(p, ds).readings;
      if i < |mid.readings| && after[i] == mid.readings[i] { LawsSay(p, init, laws, i); }
    }
  }

  // ---------------------------------------------------------------- a second run finds every reading

  lemma AllStoredStays(rs: seq<Reading>, rs': seq<Reading>, lawId: int, stages: seq<Stage>)
    requires AllStored(rs, lawId, stages) && RowsIn(rs, rs')
    ensures AllStored(rs', lawId, stages)
  {
    forall s | s in stages && ReadingOf(s.code).Some? ensures Stored(rs', lawId, ReadingOf(s.code).value) {
      var i :| 0 <= i < |rs| && Matches(rs[i], lawId, ReadingOf(s.code).value);
      assert IsReadingRow(rs, lawId, ReadingOf(s.code).value, rs[i].id);
      var j :| 0 <= j < |rs'| && rs'[j].id == rs[i].id && Matches(rs'[j], lawId, ReadingOf(s.code).value);
    }
  }

  /** After a run every law of it is public and has its readings. */
  lemma {:induction false} EveryLawIsStored(p: Public, ds: seq<Dossier>, d: Dossier)
    requires d in ds && d.isLaw
    ensures var after := LawsProjected(p, ds); d.uid in after.laws && AllStored(after.readings, after.laws[d.uid], d.stages)
  {
    var init, last := ds[..|ds| - 1], ds[|ds| - 1];
    var mid := LawsProjected(p, init);
    LawLeavesTheRest(mid, last);
    if d in init {
      EveryLawIsStored(p, init, d);
      if last.isLaw {
        ReadingsStay(WithLaw(mid, last.uid), WithLaw(mid, last.uid).laws[last.uid], last.stages);
        AllStoredStays(mid.readings, LawsProjected(p, ds).readings, mid.laws[d.uid], d.stages);
      }
    } else {
      ReadingsAreStored(WithLaw(mid, d.uid), WithLaw(mid, d.uid).laws[d.uid], d.stages);
    }
  }

  /** Laws and readings that are all there: a run adds none and moves no identity. */
  lemma {:induction false} StoredLawsAreFound(q: Public, ds: seq<Dossier>)
    requires forall d :: d in ds && d.isLaw ==> d.uid in q.laws && AllStored(q.readings, q.laws[d.uid], d.stages)
    ensures LawsProjected(q, ds).laws == q.laws && SameIdentities(q.readings, LawsProjected(q, ds).readings)
  {
    if ds == [] {
    } else {
      var init, last := ds[..|ds| - 1], ds[|ds| - 1];
      assert last in ds && forall d :: d in init ==> d in ds;
      StoredLawsAreFound(q, init);
      var mid := LawsProjected(q, init);
      LawLeavesTheRest(mid, last);
      if last.isLaw {
        SameIdentitiesSameRows(q.readings, mid.readings);
        AllStoredStays(q.readings, mid.readings, q.laws[last.uid], last.stages);
        StoredReadingsAreFound(WithLaw(mid, last.uid), q.laws[last.uid], last.stages);
      }
    }
  }

  // ---------------------------------------------------------------- what a dossier says

  /** A stage claims the sittings it names for the reading of its uid. */
  function Sits(stages: seq<Stage>): Says<Stage, string, Option<(Chamber, nat)>> {
    (s: Stage, ref: string) => if ref in s.sittings then Some(KeyOfUid(stages, s.uid)) else None
  }

  function SittingKey(stages: seq<Stage>, ref: string): Option<Option<(Chamber, nat)>> { LastAnswer(Sits(stages), stages, ref) }

  /** A stage of the dossier names the sitting, or the agenda of the sitting lists the dossier. */
  ghost predicate Mentions(d: Dossier, ref: string) { SittingKey(d.stages, ref).Some? || ref in d.agendaUids }

  /** Two listings of a dossier that give every reading its content and every sitting its reading alike. */
  ghost predicate SaysTheSame(d: Dossier, d': Dossier) {
    && d'.uid == d.uid && d'.isLaw == d.isLaw
    && (forall s :: s in d.stages <==> s in d'.stages)
    && (forall key :: LastAnswer(Contents(), d.stages, key) == LastAnswer(Contents(), d'.stages, key))
    && (forall ref :: SittingKey(d.stages, ref) == SittingKey(d'.stages, ref))
    && (forall ref :: ref in d.agendaUids <==> ref in d'.agendaUids)
  }

  ghost predicate AllSayTheSame(ds: seq<Dossier>, ds': seq<Dossier>) {
    |ds| == |ds'| && forall k :: 0 <= k < |ds| ==> SaysTheSame(ds[k], ds'[k])
  }

  lemma ReadingsFoundAgain(p: Public, ds: seq<Dossier>, later: Public, ds': seq<Dossier>)
    requires AllSayTheSame(ds, ds')
    requires later.laws == LawsProjected(p, ds).laws && later.readings == LawsProjected(p, ds).readings
    ensures LawsProjected(later, ds').laws == later.laws && SameIdentities(later.readings, LawsProjected(later, ds').readings)
  {
    forall d | d in ds' && d.isLaw ensures d.uid in later.laws && AllStored(later.readings, later.laws[d.uid], d.stages) {
      var k :| 0 <= k < |ds'| && ds'[k] == d;
      EveryLawIsStored(p, ds, ds[k]);
    }
    StoredLawsAreFound(later, ds');
  }

  lemma SameContents(laws: map<string, int>, ds: seq<Dossier>, ds': seq<Dossier>, at: (int, (Chamber, nat)))
    requires AllSayTheSame(ds, ds')
    ensures LastAnswer(DossierContents(laws), ds, at) == LastAnswer(DossierContents(laws), ds', at)
  {
    forall k | 0 <= k < |ds| ensures DossierContents(laws)(ds[k], at) == DossierContents(laws)(ds'[k], at) {
      assert SaysTheSame(ds[k], ds'[k]);
    }
    SameRowByRow(DossierContents(laws), ds, at, DossierContents(laws), ds', at);
  }

  /** A second run, over laws and readings as the first left them, leaves them so. */
  lemma ReadingsAgain(p: Public, ds: seq<Dossier>, later: Public, ds': seq<Dossier>)
    requires Inv(p) && Inv(later) && AllSayTheSame(ds, ds')
    requires later.laws == LawsProjected(p, ds).laws && later.readings == LawsProjected(p, ds).readings
    ensures LawsProjected(later, ds').laws == later.laws && LawsProjected(later, ds').readings == later.readings
  {
    var q := LawsProjected(later, ds');
    ReadingsFoundAgain(p, ds, later, ds');
    forall i | 0 <= i < |later.readings| ensures q.readings[i] == later.readings[i] {
      LawsSay(p, ds, later.laws, i);
      LawsSay(later, ds', later.laws, i);
      SameContents(later.laws, ds, ds', (later.readings[i].lawId, KeyOf(later.readings[i])));
    }
  }

  // ---------------------------------------------------------------- links

  lemma IdOfRow(p: Public, lawId: int, key: (Chamber, nat), id: int)
    requires UniqueReadings(p) && IsReadingRow(p.readings, lawId, key, id)
    ensures IdOf(p.readings, lawId, key) == Some(id)
  {
    IdOfScans(p.readings, lawId, key);
    var i :| 0 <= i < |p.readings| && p.readings[i].id == id && Matches(p.readings[i], lawId, key);
    assert IsReadingRow(p.readings, lawId, key, IdOf(p.readings, lawId, key).value);
    OneRowPerKey(p, lawId, key, id, IdOf(p.readings, lawId, key).value);
  }

  function IdIn(q: Public, lawId: int): Option<(Chamber, nat)> -> Option<int> {
    (key: Option<(Chamber, nat)>) => if key.Some? then IdOf(q.readings, lawId, key.value) else None
  }

  /** The reading row that a dossier gives a sitting, in the table `q`. */
  function Said(q: Public, d: Dossier, lawId: int, ref: string): Option<int> {
    var key := SittingKey(d.stages, ref);
    if key.Some? then IdIn(q, lawId)(key.value) else None
  }

  lemma DictionarySays(p: Public, d: Dossier, lawId: int, q: Public, ref: string)
    requires UniqueReadings(q) && RowsIn(WithReadings(p, lawId, d.stages).0.readings, q.readings)
    ensures var found := Find(SittingsOf(d, WithReadings(p, lawId, d.stages).1), ref);
            && (found.Some? <==> Mentions(d, ref))
            && (found.Some? ==> found.value == Said(q, d, lawId, ref))
  {
    var (after, ids) := WithReadings(p, lawId, d.stages);
    forall s | s in d.stages ensures ReadingIdOf(s, ids) == IdIn(q, lawId)(KeyOfUid(d.stages, s.uid)) {
      IdsAre(p, lawId, d.stages, s.uid);
      if s.uid in ids { IdOfRow(q, lawId, KeyOfUid(d.stages, s.uid).value, ids[s.uid]); }
    }
    TranslatedAnswer(Sits(d.stages), Names(ids), IdIn(q, lawId), d.stages, ref);
    LastStageNames(d.stages, ids, ref);
    AgendaAdds(FromStages(d.stages, ids), d.agendaUids, ref);
  }

  /** What a statement did to one link: coalesce(new, old). */
  ghost predicate LinkFate(m: map<(int, int), Option<int>>, m': map<(int, int), Option<int>>, key: (int, int), mentioned: bool, said: Option<int>) {
    && (said.Some? ==> mentioned)
    && (key in m' <==> key in m || mentioned)
    && (key in m' ==> m'[key] == if said.Some? then said else if key in m then m[key] else None)
  }

  lemma DictionaryLinks(p: Public, lawId: int, sittings: seq<Sitting>, key: (int, int), ref: string)
    requires UniqueDebates(p) && DistinctSittings(sittings) && ref in p.debates && p.debates[ref] == key.0
    ensures var found := Find(sittings, ref);
            LinkFate(p.debateLaw, LinkedAll(p, lawId, sittings), key, key.1 == lawId && found.Some?,
                     if key.1 == lawId && found.Some? then found.value else None)
  {
    FindIsThere(sittings, ref);
    if key.1 == lawId && Find(sittings, ref).Some? {
      var i :| 0 <= i < |sittings| && sittings[i] == Sitting(ref, Find(sittings, ref).value);
      EachSittingIsLinked(p, lawId, sittings, i);
    } else {
      OtherLinksStay(p, lawId, sittings, key);
    }
  }

  /** Projecting one dossier: exactly the sittings it mentions are linked to its law, with the reading it says. */
  lemma LawLinkIs(p: Public, d: Dossier, q: Public, key: (int, int), ref: string)
    requires UniqueDebates(p) && UniqueReadings(q) && RowsIn(LawProjected(p, d).readings, q.readings)
    requires forall u :: u in LawProjected(p, d).laws ==> u in q.laws && q.laws[u] == LawProjected(p, d).laws[u]
    requires ref in p.debates && p.debates[ref] == key.0
    ensures var its := IsDossierOf(q.laws, d, key.1);
            LinkFate(p.debateLaw, LawProjected(p, d).debateLaw, key, its && Mentions(d, ref), if its then Said(q, d, key.1, ref) else None)
  {
    LawLeavesTheRest(p, d);
    if d.isLaw {
      var p1 := WithLaw(p, d.uid);
      var lawId := p1.laws[d.uid];
      var (p2, ids) := WithReadings(p1, lawId, d.stages);
      ReadingsLeaveTheRest(p1, lawId, d.stages);
      DictionarySays(p1, d, lawId, q, ref);
      SittingsAreDistinct(d, ids);
      DictionaryLinks(p2, lawId, SittingsOf(d, ids), key, ref);
    }
  }

  /** A debate that public.debate does not have is linked to nothing. */
  lemma UnknownDebateStays(p: Public, d: Dossier, key: (int, int))
    requires forall ref :: ref in p.debates ==> p.debates[ref] != key.0
    ensures LinkFate(p.debateLaw, LawProjected(p, d).debateLaw, key, false, None)
  {
    if d.isLaw {
      var p1 := WithLaw(p, d.uid);
      var (p2, ids) := WithReadings(p1, p1.laws[d.uid], d.stages);
      ReadingsLeaveTheRest(p1, p1.laws[d.uid], d.stages);
      OtherLinksStay(p2, p1.laws[d.uid], SittingsOf(d, ids), key);
    }
  }

  /** What a dossier of a run says of a sitting for a law. */
  function LinkSays(q: Public): Says<Dossier, (int, string), int> {
    (d: Dossier, k: (int, string)) => if IsDossierOf(q.laws, d, k.0) then Said(q, d, k.0, k.1) else None
  }

  ghost predicate RunMentions(q: Public, ds: seq<Dossier>, lawId: int, ref: string) {
    exists d :: d in ds && IsDossierOf(q.laws, d, lawId) && Mentions(d, ref)
  }

  /** The table of the run lies within that of `q`. */
  ghost predicate Within(p: Public, q: Public) {
    RowsIn(p.readings, q.readings) && forall u :: u in p.laws ==> u in q.laws && q.laws[u] == p.laws[u]
  }

  lemma LawStaysWithin(p: Public, d: Dossier, q: Public)
    requires Within(LawProjected(p, d), q)
    ensures Within(p, q)
  {
    LawLeavesTheRest(p, d);
    if d.isLaw { ReadingsStay(WithLaw(p, d.uid), WithLaw(p, d.uid).laws[d.uid], d.stages); }
  }

  /** A link after a run: there iff it was or a dossier of its law mentions the sitting; its reading is what the last one says, else what it was. */
  lemma {:induction false} RunLinksAre(p: Public, ds: seq<Dossier>, q: Public, key: (int, int), ref: string)
    requires UniqueDebates(p) && UniqueReadings(q) && Within(LawsProjected(p, ds), q)
    requires ref in p.debates && p.debates[ref] == key.0
    ensures LinkFate(p.debateLaw, LawsProjected(p, ds).debateLaw, key,
                     RunMentions(q, ds, key.1, ref), LastAnswer(LinkSays(q), ds, (key.1, ref)))
  {
    if ds == [] {
    } else {
      var init, last := ds[..|ds| - 1], ds[|ds| - 1];
      LawStaysWithin(LawsProjected(p, init), last, q);
      RunLinksAre(p, init, q, key, ref);
      LawsLeaveTheRest(p, init);
      LawLinkIs(LawsProjected(p, init), last, q, key, ref);
      assert forall d :: d in ds <==> d in init || d == last;
    }
  }

  lemma {:induction false} UnknownDebatesStay(p: Public, ds: seq<Dossier>, key: (int, int))
    requires forall ref :: ref in p.debates ==> p.debates[ref] != key.0
    ensures LinkFate(p.debateLaw, LawsProjected(p, ds).debateLaw, key, false, None)
  {
    if ds == [] {
    } else {
      var init := ds[..|ds| - 1];
      UnknownDebatesStay(p, init, key);
      LawsLeaveTheRest(p, init);
      UnknownDebateStays(LawsProjected(p, init), ds[|ds| - 1], key);
    }
  }

  // ---------------------------------------------------------------- the same dossiers again

  lemma MentionedToo(q: Public, ds: seq<Dossier>, ds': seq<Dossier>, lawId: int, ref: string)
    requires AllSayTheSame(ds, ds') && RunMentions(q, ds, lawId, ref)
    ensures RunMentions(q, ds', lawId, ref)
  {
    var d :| d in ds && IsDossierOf(q.laws, d, lawId) && Mentions(d, ref);
    var k :| 0 <= k < |ds| && ds[k] == d;
    assert ds'[k] in ds' && Mentions(ds'[k], ref);
  }

  lemma SameLinks(q: Public, ds: seq<Dossier>, ds': seq<Dossier>, lawId: int, ref: string)
    requires AllSayTheSame(ds, ds')
    ensures LastAnswer(LinkSays(q), ds, (lawId, ref)) == LastAnswer(LinkSays(q), ds', (lawId, ref))
  {
    forall k | 0 <= k < |ds| ensures LinkSays(q)(ds[k], (lawId, ref)) == LinkSays(q)(ds'[k], (lawId, ref)) {
      assert SaysTheSame(ds[k], ds'[k]);
    }
    SameRowByRow(LinkSays(q), ds, (lawId, ref), LinkSays(q), ds', (lawId, ref));
  }

  lemma SameMentions(q: Public, ds: seq<Dossier>, ds': seq<Dossier>, lawId: int, ref: string)
    requires AllSayTheSame(ds, ds')
    ensures RunMentions(q, ds, lawId, ref) <==> RunMentions(q, ds', lawId, ref)
  {
    if RunMentions(q, ds, lawId, ref) { MentionedToo(q, ds, ds', lawId, ref); }
    if RunMentions(q, ds', lawId, ref) { MentionedToo(q, ds', ds, lawId, ref); }
  }

  /** Laws, readings and links are as a run over `ds` from `p` left them. */
  ghost predicate LeftBy(p: Public, ds: seq<Dossier>, later: Public) {
    var q := LawsProjected(p, ds);
    later.laws == q.laws && later.readings == q.readings && later.debateLaw == q.debateLaw
  }

  /** A debate known to both runs keeps its links. */
  lemma LinkAgain(p: Public, ds: seq<Dossier>, later: Public, ds': seq<Dossier>, key: (int, int), ref: string)
    requires Inv(p) && Inv(later) && AllSayTheSame(ds, ds') && LeftBy(p, ds, later)
    requires Get(p.debates, ref) == Get(later.debates, ref) == Some(key.0)
    ensures Get(LawsProjected(later, ds').debateLaw, key) == Get(later.debateLaw, key)
  {
    LawsKeep(p, ds);
    ReadingsAgain(p, ds, later, ds');
    SameMentions(later, ds, ds', key.1, ref);
    SameLinks(later, ds, ds', key.1, ref);
    RunLinksAre(p, ds, later, key, ref);
    RunLinksAre(later, ds', later, key, ref);
  }

  lemma UnknownLinkAgain(later: Public, ds: seq<Dossier>, key: (int, int))
    requires forall ref :: ref in later.debates ==> later.debates[ref] != key.0
    ensures Get(LawsProjected(later, ds).debateLaw, key) == Get(later.debateLaw, key)
  {
    UnknownDebatesStay(later, ds, key);
  }

  /** The same rows in every table, contents and ids; counters and sequences aside. */
  ghost predicate SameTables(p: Public, p': Public) {
    && p.laws == p'.laws && p.readings == p'.readings && p.debates == p'.debates && p.debateLaw == p'.debateLaw
    && p.amendments.rows == p'.amendments.rows && p.texts.rows == p'.texts.rows && p.ballots == p'.ballots
  }

  /** A run over dossiers that say the same changes nothing, whatever else has run in between. */
  lemma LawsAgain(p: Public, ds: seq<Dossier>, later: Public, ds': seq<Dossier>)
    requires Inv(p) && Inv(later) && AllSayTheSame(ds, ds') && LeftBy(p, ds, later) && later.debates == p.debates
    ensures SameTables(later, LawsProjected(later, ds'))
  {
    var again := LawsProjected(later, ds');
    ReadingsAgain(p, ds, later, ds');
    LawsLeaveTheRest(later, ds');
    forall key ensures Get(again.debateLaw, key) == Get(later.debateLaw, key) {
      if ref :| ref in p.debates && p.debates[ref] == key.0 {
        LinkAgain(p, ds, later, ds', key, ref);
      } else {
        UnknownLinkAgain(later, ds', key);
      }
    }
    SameDictionary(again.debateLaw, later.debateLaw);
  }

  // ---------------------------------------------------------------- stages with one position

  function Position(): Stage -> int { (s: Stage) => s.position }

  /** Of a sitting, the reading of the code of a stage that names it. */
  function SitsByCode(): Says<Stage, string, Option<(Chamber, nat)>> {
    (s: Stage, ref: string) => if ref in s.sittings then Some(ReadingOf(s.code)) else None
  }

  /** A dossier as the queries may list it another time: ORDER BY position for its stages, no order for the agenda. */
  ghost predicate Relisted(d: Dossier, d': Dossier) {
    && d' == d.(stages := d'.stages, agendaUids := d'.agendaUids)
    && IsReordering(Position(), d.stages, d'.stages) && Permuted(d.agendaUids, d'.agendaUids)
  }

  /** Stages of one position that come last for a reading have one content; for a sitting, one reading. */
  ghost predicate TiesAgree(stages: seq<Stage>) {
    && (forall key :: TopsAgree(Contents(), Position(), stages, key))
    && (forall ref :: TopsAgree(SitsByCode(), Position(), stages, ref))
  }

  /** stage_uid is the key of raw.law_stage, and the query lists it by position. */
  ghost predicate IsStageList(stages: seq<Stage>) { DistinctStages(stages) && Ranked(Position(), stages) }

  lemma DistinctWhenRelisted(stages: seq<Stage>, other: seq<Stage>)
    requires DistinctStages(stages) && Permuted(stages, other)
    ensures DistinctStages(other)
  {
    PermutedMembers(stages, other);
    forall i, j | 0 <= i < j < |other| ensures other[i].uid != other[j].uid {
      assert other[i] in other && other[j] in other;
      if other[i].uid == other[j].uid {
        var k :| 0 <= k < |stages| && stages[k] == other[i];
        var l :| 0 <= l < |stages| && stages[l] == other[j];
        assert k == l;
        RepeatCounts(other, i, j);
        DistinctCountsOnce(stages, other[i]);
      }
    }
  }

  lemma SittingKeyByCode(stages: seq<Stage>, ref: string)
    requires DistinctStages(stages)
    ensures SittingKey(stages, ref) == LastAnswer(SitsByCode(), stages, ref)
  {
    forall s | s in stages ensures KeyOfUid(stages, s.uid) == ReadingOf(s.code) { OwnKey(stages, s); }
    TranslatedAnswer(SitsByCode(), Sits(stages), (key: Option<(Chamber, nat)>) => key, stages, ref);
  }

  lemma RelistedSaysTheSame(d: Dossier, d': Dossier)
    requires IsStageList(d.stages) && TiesAgree(d.stages) && Relisted(d, d')
    ensures SaysTheSame(d, d')
  {
    PermutedMembers(d.stages, d'.stages);
    PermutedMembers(d.agendaUids, d'.agendaUids);
    DistinctWhenRelisted(d.stages, d'.stages);
    forall key ensures LastAnswer(Contents(), d.stages, key) == LastAnswer(Contents(), d'.stages, key) {
      SameAnswer(Contents(), Position(), d.stages, d'.stages, key);
    }
    forall ref ensures SittingKey(d.stages, ref) == SittingKey(d'.stages, ref) {
      SittingKeyByCode(d.stages, ref);
      SittingKeyByCode(d'.stages, ref);
      SameAnswer(SitsByCode(), Position(), d.stages, d'.stages, ref);
    }
  }

  /** One law, projected twice in whatever listings the queries return, as once. */
  ghost predicate SettledLaw(d: Dossier) {
    forall p, x, y :: Inv(p) && Relisted(d, x) && Relisted(d, y) ==> SameTables(LawProjected(p, x), LawProjected(LawProjected(p, x), y))
  }

  lemma OneDossierRun(p: Public, d: Dossier)
    ensures LawsProjected(p, [d]) == LawProjected(p, d)
  {
    assert [d][..0] == [];
    assert LawsProjected(p, []) == p;
  }

  lemma TiesAgreeIsEnough(p: Public, d: Dossier, x: Dossier, y: Dossier)
    requires Inv(p) && IsStageList(d.stages) && TiesAgree(d.stages) && Relisted(d, x) && Relisted(d, y)
    ensures SameTables(LawProjected(p, x), LawProjected(LawProjected(p, x), y))
  {
    RelistedSaysTheSame(d, x);
    RelistedSaysTheSame(d, y);
    var q := LawProjected(p, x);
    OneDossierRun(p, x);
    OneDossierRun(q, y);
    LawKeeps(p, x);
    LawLeavesTheRest(p, x);
    LawsAgain(p, [x], q, [y]);
  }

  lemma StoredRow(p: Public, d: Dossier, key: (Chamber, nat)) returns (i: nat)
    requires d.isLaw && exists s :: s in d.stages && ReadingOf(s.code) == Some(key)
    ensures var q := LawProjected(p, d);
            d.uid in q.laws && i < |q.readings| && Matches(q.readings[i], q.laws[d.uid], key)
  {
    OneDossierRun(p, d);
    EveryLawIsStored(p, [d], d);
    var q := LawProjected(p, d);
    assert Stored(q.readings, q.laws[d.uid], key);
    i :| 0 <= i < |q.readings| && Matches(q.readings[i], q.laws[d.uid], key);
  }

  /** After a law is projected, the row of a reading carries what its last stage says. */
  lemma ReadingCarriesItsLastStage(p: Public, d: Dossier, key: (Chamber, nat)) returns (i: nat)
    requires Inv(p) && d.isLaw && LastAnswer(Contents(), d.stages, key).Some?
    ensures var q := LawProjected(p, d);
            && d.uid in q.laws && i < |q.readings| && Matches(q.readings[i], q.laws[d.uid], key)
            && q.readings[i].content == LastAnswer(Contents(), d.stages, key).value
  {
    SomeRowDecides(Contents(), d.stages, key);
    var j :| DecidedAt(Contents(), d.stages, key, j);
    assert d.stages[j] in d.stages && ReadingOf(d.stages[j].code) == Some(key);
    i := StoredRow(p, d, key);
    LawSays(p, d, LawProjected(p, d).laws, i);
  }

  lemma ContentsDiffer(p: Public, x: Dossier, y: Dossier, key: (Chamber, nat))
    requires Inv(p) && x.isLaw && y.isLaw && x.uid == y.uid
    requires LastAnswer(Contents(), x.stages, key).Some? && LastAnswer(Contents(), y.stages, key).Some?
    requires LastAnswer(Contents(), x.stages, key) != LastAnswer(Contents(), y.stages, key)
    ensures !SameTables(LawProjected(p, x), LawProjected(LawProjected(p, x), y))
  {
    var q := LawProjected(p, x);
    LawKeeps(p, x);
    var i := ReadingCarriesItsLastStage(p, x, key);
    var j := ReadingCarriesItsLastStage(q, y, key);
    if SameTables(q, LawProjected(q, y)) { OneMatch(q, q.laws[x.uid], key, i, j); }
  }

  lemma DistinctKeysDistinctIds(p: Public, lawId: int, a: (Chamber, nat), b: (Chamber, nat))
    requires UniqueReadings(p) && IdOf(p.readings, lawId, a).Some? && IdOf(p.readings, lawId, a) == IdOf(p.readings, lawId, b)
    ensures a == b
  {
    IdOfScans(p.readings, lawId, a);
    IdOfScans(p.readings, lawId, b);
    var i :| 0 <= i < |p.readings| && Matches(p.readings[i], lawId, a) && p.readings[i].id == IdOf(p.readings, lawId, a).value;
    var j :| 0 <= j < |p.readings| && Matches(p.readings[j], lawId, b) && p.readings[j].id == IdOf(p.readings, lawId, a).value;
    assert i == j;
  }

  /** The link that projecting a law leaves for a sitting that no link knew. */
  lemma FreshLinkIs(p: Public, d: Dossier, ref: string)
    requires Inv(p) && d.isLaw && ref in p.debates && SittingKey(d.stages, ref).Some?
    ensures var q := LawProjected(p, d);
            && d.uid in q.laws && (p.debates[ref], q.laws[d.uid]) in q.debateLaw
            && (Said(q, d, q.laws[d.uid], ref).Some? || p.debateLaw == map[] ==>
                  q.debateLaw[(p.debates[ref], q.laws[d.uid])] == Said(q, d, q.laws[d.uid], ref))
  {
    LawKeeps(p, d);
    LawLeavesTheRest(p, d);
    var q := LawProjected(p, d);
    LawLinkIs(p, d, q, (p.debates[ref], q.laws[d.uid]), ref);
  }

  lemma LinksDiffer(p: Public, x: Dossier, y: Dossier, ref: string)
    requires Inv(p) && p.debateLaw == map[] && ref in p.debates && x.isLaw && y.isLaw && x.uid == y.uid && DistinctStages(y.stages)
    requires SittingKey(x.stages, ref).Some? && SittingKey(y.stages, ref).Some? && SittingKey(y.stages, ref).value.Some?
    requires SittingKey(x.stages, ref) != SittingKey(y.stages, ref)
    ensures !SameTables(LawProjected(p, x), LawProjected(LawProjected(p, x), y))
  {
    var q, key := LawProjected(p, x), SittingKey(y.stages, ref).value.value;
    var q2 := LawProjected(q, y);
    LawKeeps(p, x);
    LawLeavesTheRest(p, x);
    SittingKeyByCode(y.stages, ref);
    SomeRowDecides(SitsByCode(), y.stages, ref);
    var j :| DecidedAt(SitsByCode(), y.stages, ref, j) && SitsByCode()(y.stages[j], ref) == Some(Some(key));
    assert y.stages[j] in y.stages;
    var i := StoredRow(q, y, key);
    IdOfScans(q2.readings, q2.laws[y.uid], key);
    FreshLinkIs(p, x, ref);
    FreshLinkIs(q, y, ref);
    if SameTables(q, q2) && SittingKey(x.stages, ref).value.Some? {
      DistinctKeysDistinctIds(q, q.laws[x.uid], key, SittingKey(x.stages, ref).value.value);
    }
  }

  /** A schema that knows one sitting and nothing else. */
  function OneSitting(ref: string): Public { EMPTY.(debates := map[ref := 1], nextDebate := 2) }

  lemma ContentTieBreaksIt(d: Dossier, key: (Chamber, nat))
    requires d.isLaw && IsStageList(d.stages) && !TopsAgree(Contents(), Position(), d.stages, key)
    ensures !SettledLaw(d)
  {
    AnyOrderIff(Contents(), Position(), d.stages, key);
    var other :| IsReordering(Position(), d.stages, other) && LastAnswer(Contents(), other, key) != LastAnswer(Contents(), d.stages, key);
    PermutedMembers(d.stages, other);
    SilentRows(Contents(), d.stages, key);
    SilentRows(Contents(), other, key);
    var y := d.(stages := other);
    assert Inv(EMPTY) && Relisted(d, d) && Relisted(d, y);
    ContentsDiffer(EMPTY, d, y, key);
  }

  lemma SittingTieBreaksIt(d: Dossier, ref: string)
    requires d.isLaw && IsStageList(d.stages) && !TopsAgree(SitsByCode(), Position(), d.stages, ref)
    ensures !SettledLaw(d)
  {
    AnyOrderIff(SitsByCode(), Position(), d.stages, ref);
    var other :| IsReordering(Position(), d.stages, other) && LastAnswer(SitsByCode(), other, ref) != LastAnswer(SitsByCode(), d.stages, ref);
    PermutedMembers(d.stages, other);
    DistinctWhenRelisted(d.stages, other);
    SilentRows(SitsByCode(), d.stages, ref);
    SilentRows(SitsByCode(), other, ref);
    SittingKeyByCode(d.stages, ref);
    SittingKeyByCode(other, ref);
    var y, p := d.(stages := other), OneSitting(ref);
    assert Inv(p) && Relisted(d, d) && Relisted(d, y);
    if SittingKey(other, ref).value.Some? { LinksDiffer(p, d, y, ref); } else { LinksDiffer(p, y, d, ref); }
  }

  /**
   A law projected twice is as projected once, in whatever order the queries list its stages of
   one position and its agenda, exactly when the stages that may come last for a reading have
   one content and those that may come last for a sitting have one reading.
   */
  lemma LawSettledIff(d: Dossier)
    requires d.isLaw && IsStageList(d.stages)
    ensures SettledLaw(d) <==> TiesAgree(d.stages)
  {
    if TiesAgree(d.stages) {
      forall p, x, y | Inv(p) && Relisted(d, x) && Relisted(d, y)
        ensures SameTables(LawProjected(p, x), LawProjected(LawProjected(p, x), y))
      {
        TiesAgreeIsEnough(p, d, x, y);
      }
    } else if key :| !TopsAgree(Contents(), Position(), d.stages, key) {
      ContentTieBreaksIt(d, key);
    } else {
      var ref :| !TopsAgree(SitsByCode(), Position(), d.stages, ref);
      SittingTieBreaksIt(d, ref);
    }
  }
}

/**
 public.law_reading and everything that points at it. The table has no unique key,
 four projections hold reading ids, and each projection resolves them on its own.
 */
module ReadingLinks {
  import opened Prelude
  import opened ReadingCodes
  import AmendmentPages
  import LawTextProjection
  import BallotLinks

  datatype Stage = Stage(
    uid: string, dossier: string, position: int, code: string, texte: Option<string>, commissionTexte: Option<string>,
    adoptedTexte: Option<string>, sittings: seq<string>, content: string)

  datatype Dossier = Dossier(uid: string, isLaw: bool, stages: seq<Stage>, agendaUids: seq<string>)

  datatype Reading = Reading(id: int, lawId: int, chamber: Chamber, number: nat, content: string)

  datatype Ballot = Ballot(lawId: Option<int>, readingId: Option<int>, amendmentId: Option<nat>, debateId: int)

  datatype Public = Public(
    laws: map<string, int>, nextLaw: int,
    readings: seq<Reading>, nextReading: int,
    debates: map<string, int>, nextDebate: int,
    debateLaw: map<(int, int), Option<int>>,
    amendments: AmendmentPages.State, texts: LawTextProjection.State, ballots: map<string, Ballot>)

  // ---------------------------------------------------------------- readings of one law

  predicate Matches(r: Reading, lawId: int, key: (Chamber, nat)) {
    r.lawId == lawId && r.chamber == key.0 && r.number == key.1
  }

  /** SELECT id ... LIMIT 1: the first row that matches. */
  function FirstMatch(rs: seq<Reading>, lawId: int, key: (Chamber, nat)): (i: nat)
    ensures i <= |rs|
    ensures i < |rs| ==> Matches(rs[i], lawId, key)
    ensures forall j :: 0 <= j < i ==> !Matches(rs[j], lawId, key)
  {
    if rs == [] then 0 else if Matches(rs[0], lawId, key) then 0 else 1 + FirstMatch(rs[1..], lawId, key)
  }

  /** A dictionary built over the table: the last row that matches. */
  function IdOf(rs: seq<Reading>, lawId: int, key: (Chamber, nat)): Option<int> {
    if rs == [] then None
    else if Matches(rs[|rs| - 1], lawId, key) then Some(rs[|rs| - 1].id)
    else IdOf(rs[..|rs| - 1], lawId, key)
  }

  /** Lookup, then insert or update, of the reading of one stage. */
  function WithReading(p: Public, lawId: int, stage: Stage): (Public, Option<int>) {
    match ReadingOf(stage.code)
    case None => (p, None)
    case Some(key) =>
      var i := FirstMatch(p.readings, lawId, key);
      if i < |p.readings| then
        var id := p.readings[i].id;
        (p.(readings := p.readings[i := Reading(id, lawId, key.0, key.1, stage.content)]), Some(id))
      else
        (p.(readings := p.readings + [Reading(p.nextReading, lawId, key.0, key.1, stage.content)],
            nextReading := p.nextReading + 1),
         Some(p.nextReading))
  }

  /** The readings of a law, and the dictionary stage uid -> reading id. */
  function WithReadings(p: Public, lawId: int, stages: seq<Stage>): (Public, map<string, int>) {
    if stages == [] then (p, map[])
    else
      var (before, ids) := WithReadings(p, lawId, stages[..|stages| - 1]);
      var last := stages[|stages| - 1];
      var (after, id) := WithReading(before, lawId, last);
      (after, if id.Some? then ids[last.uid := id.value] else ids)
  }

  // ---------------------------------------------------------------- links from sittings

  datatype Sitting = Sitting(uid: string, reading: Option<int>)

  /** d[uid] = reading, on a dictionary that keeps insertion order. */
  function Put(d: seq<Sitting>, uid: string, reading: Option<int>): seq<Sitting> {
    if d == [] then [Sitting(uid, reading)]
    else if d[0].uid == uid then [Sitting(uid, reading)] + d[1..]
    else [d[0]] + Put(d[1..], uid, reading)
  }

  predicate Has(d: seq<Sitting>, uid: string) { exists i :: 0 <= i < |d| && d[i].uid == uid }

  function PutAll(d: seq<Sitting>, uids: seq<string>, reading: Option<int>): seq<Sitting> {
    if uids == [] then d else Put(PutAll(d, uids[..|uids| - 1], reading), uids[|uids| - 1], reading)
  }

  /** Sitting uid -> reading id, from the stages in order. */
  function FromStages(stages: seq<Stage>, ids: map<string, int>): seq<Sitting> {
    if stages == [] then []
    else
      var last := stages[|stages| - 1];
      PutAll(FromStages(stages[..|stages| - 1], ids), last.sittings, if last.uid in ids then Some(ids[last.uid]) else None)
  }

  /** setdefault(uid, None) for the sittings whose agenda lists the dossier. */
  function WithAgenda(d: seq<Sitting>, agenda: seq<string>): seq<Sitting> {
    if agenda == [] then d
    else
      var before, uid := WithAgenda(d, agenda[..|agenda| - 1]), agenda[|agenda| - 1];
      if Has(before, uid) then before else before + [Sitting(uid, None)]
  }

  /** INSERT ... ON CONFLICT (debate_id, law_id) DO UPDATE SET reading = coalesce(new, old). */
  function Linked(links: map<(int, int), Option<int>>, debateId: int, lawId: int, reading: Option<int>): map<(int, int), Option<int>> {
    var key := (debateId, lawId);
    links[key := if reading.None? && key in links then links[key] else reading]
  }

  /** One row per sitting that public.debate knows. */
  function LinkedAll(p: Public, lawId: int, d: seq<Sitting>): map<(int, int), Option<int>> {
    if d == [] then p.debateLaw
    else
      var before, last := LinkedAll(p, lawId, d[..|d| - 1]), d[|d| - 1];
      if last.uid in p.debates then Linked(before, p.debates[last.uid], lawId, last.reading) else before
  }

  // ---------------------------------------------------------------- the law projection

  /** The sequence advances even on a conflict. */
  function WithLaw(p: Public, uid: string): Public {
    p.(laws := if uid in p.laws then p.laws else p.laws[uid := p.nextLaw], nextLaw := p.nextLaw + 1)
  }

  function LawProjected(p: Public, d: Dossier): Public {
    if !d.isLaw then p
    else
      var p1 := WithLaw(p, d.uid);
      var lawId := p1.laws[d.uid];
      var (p2, ids) := WithReadings(p1, lawId, d.stages);
      p2.(debateLaw := LinkedAll(p2, lawId, WithAgenda(FromStages(d.stages, ids), d.agendaUids)))
  }

  function LawsProjected(p: Public, ds: seq<Dossier>): Public {
    if ds == [] then p else LawProjected(LawsProjected(p, ds[..|ds| - 1]), ds[|ds| - 1])
  }

  // ---------------------------------------------------------------- the other projections' indexes

  function PutTexte(m: map<(int, string), int>, lawId: int, texte: Option<string>, rid: int): map<(int, string), int> {
    if Truthy(texte) then m[(lawId, texte.value) := rid] else m
  }

  /** (law id, texte uid) -> reading id; a reading not in public is passed over. */
  function AmendmentReadings(p: Public, stages: seq<Stage>): map<(int, string), int> {
    if stages == [] then map[]
    else
      var before, s := AmendmentReadings(p, stages[..|stages| - 1]), stages[|stages| - 1];
      if s.dossier !in p.laws || ReadingOf(s.code).None? then before
      else
        var lawId := p.laws[s.dossier];
        var rid := IdOf(p.readings, lawId, ReadingOf(s.code).value);
        if rid.None? then before
        else PutTexte(PutTexte(before, lawId, s.texte, rid.value), lawId, s.commissionTexte, rid.value)
  }

  function PutText(m: map<(Option<string>, string), Option<int>>, dossier: string, texte: Option<string>, rid: Option<int>)
    : map<(Option<string>, string), Option<int>>
  {
    if Truthy(texte) then m[(Some(dossier), texte.value) := rid] else m
  }

  /** (dossier uid, texte uid) -> reading id, None included. */
  function TextReadings(p: Public, stages: seq<Stage>): map<(Option<string>, string), Option<int>> {
    if stages == [] then map[]
    else
      var before, s := TextReadings(p, stages[..|stages| - 1]), stages[|stages| - 1];
      if s.dossier !in p.laws || ReadingOf(s.code).None? then before
      else
        var rid := IdOf(p.readings, p.laws[s.dossier], ReadingOf(s.code).value);
        PutText(PutText(PutText(before, s.dossier, s.texte, rid), s.dossier, s.commissionTexte, rid), s.dossier, s.adoptedTexte, rid)
  }

  /** What the ballot projection keeps of a stage: its reading, and the texts its amendments may be on. */
  datatype StageReading = StageReading(id: int, textes: set<string>)

  /** {t for t in (texte, commission_texte) if t} */
  function TextesOf(s: Stage): set<string> {
    (if Truthy(s.texte) then {s.texte.value} else {}) + (if Truthy(s.commissionTexte) then {s.commissionTexte.value} else {})
  }

  function PutSittings(m: map<(string, string), StageReading>, dossier: string, sittings: seq<string>, r: StageReading)
    : map<(string, string), StageReading>
  {
    if sittings == [] then m
    else PutSittings(m, dossier, sittings[..|sittings| - 1], r)[(dossier, sittings[|sittings| - 1]) := r]
  }

  /** (dossier uid, sitting uid) -> reading id and texts of that stage. */
  function BallotReadings(p: Public, stages: seq<Stage>): map<(string, string), StageReading> {
    if stages == [] then map[]
    else
      var before, s := BallotReadings(p, stages[..|stages| - 1]), stages[|stages| - 1];
      if s.dossier !in p.laws || ReadingOf(s.code).None? then before
      else
        var rid := IdOf(p.readings, p.laws[s.dossier], ReadingOf(s.code).value);
        if rid.None? then before else PutSittings(before, s.dossier, s.sittings, StageReading(rid.value, TextesOf(s)))
  }

  // ---------------------------------------------------------------- the other projections

  function AmendmentsProjected(p: Public, rows: seq<AmendmentPages.RawAmendment>, stages: seq<Stage>,
                               deputies: map<string, int>, groups: map<string, int>): Public {
    var l := AmendmentPages.Lookups(p.laws, deputies, groups, AmendmentReadings(p, stages));
    p.(amendments := AmendmentPages.AllUpserted(p.amendments, AmendmentPages.KeptRows(rows, l)))
  }

  function TextLookups(p: Public, stages: seq<Stage>, numbers: map<string, Option<int>>): LawTextProjection.Lookups {
    LawTextProjection.Lookups(p.laws, TextReadings(p, stages), numbers)
  }

  function TextsProjected(p: Public, raw: seq<LawTextProjection.RawText>, legislature: int, stages: seq<Stage>, numbers: map<string, Option<int>>): Public {
    p.(texts := LawTextProjection.RunOver(p.texts, raw, legislature, TextLookups(p, stages, numbers)))
  }

  // ---------------------------------------------------------------- scrutins

  /** A scrutin; `refs` are the dossiers on the agenda of its sitting. */
  datatype RawBallot = RawBallot(
    uid: string, agendaUid: string, dossier: Option<string>, refs: set<string>, title: string,
    number: Option<string>, day: int)

  /** A row of raw.amendment examined in séance. */
  datatype Seance = Seance(uid: string, texte: string, number: Option<string>, day: Option<int>)

  /** The order in which a set of texts is iterated. */
  type Listing = set<string> -> seq<string>

  ghost predicate IsListing(listing: Listing) { forall s :: multiset(listing(s)) == multiset(s) }

  /** What a ballot run reads besides the ballots. */
  datatype Scene = Scene(titles: map<string, string>, stages: seq<Stage>, seances: seq<Seance>, listing: Listing)

  function PublicAmendment(st: AmendmentPages.State): Seance -> Option<BallotLinks.AmendmentRow> {
    (a: Seance) =>
      if a.uid in st.rows
      then Some(BallotLinks.AmendmentRow(a.texte, a.number, a.day, BallotLinks.Hit(st.rows[a.uid].id, a.uid))) else None
  }

  /** raw.amendment JOIN public.amendment */
  function Joined(st: AmendmentPages.State, seances: seq<Seance>): seq<BallotLinks.AmendmentRow> {
    FilterMap(PublicAmendment(st), seances)
  }

  function LawOf(p: Public, b: RawBallot, c: Scene): Option<string> {
    BallotLinks.LawFor(b.dossier, c.listing(b.refs * p.laws.Keys), p.laws, c.titles, b.title)
  }

  function StageOf(p: Public, b: RawBallot, c: Scene): Option<StageReading> {
    var dossier := LawOf(p, b, c);
    if dossier.Some? && (dossier.value, b.agendaUid) in BallotReadings(p, c.stages)
    then Some(BallotReadings(p, c.stages)[(dossier.value, b.agendaUid)]) else None
  }

  /** The texts on which the amendment of a scrutin may be. */
  function TextesFor(p: Public, b: RawBallot, c: Scene): set<string> {
    if StageOf(p, b, c).Some? then StageOf(p, b, c).value.textes else {}
  }

  function HitFor(p: Public, b: RawBallot, c: Scene): Option<BallotLinks.Hit> {
    BallotLinks.Find(Joined(p.amendments, c.seances), b.number, b.day, c.listing(TextesFor(p, b, c)))
  }

  function BallotRow(p: Public, b: RawBallot, c: Scene, debateId: int): Ballot {
    var dossier, stage, hit := LawOf(p, b, c), StageOf(p, b, c), HitFor(p, b, c);
    Ballot(
      if dossier.Some? && dossier.value in p.laws then Some(p.laws[dossier.value]) else None,
      if stage.Some? then Some(stage.value.id) else None,
      if hit.Some? then Some(hit.value.id) else None,
      debateId)
  }

  function BallotsProjected(p: Public, bs: seq<RawBallot>, c: Scene): Public {
    if bs == [] then p
    else
      var before, b := BallotsProjected(p, bs[..|bs| - 1], c), bs[|bs| - 1];
      if b.agendaUid !in p.debates then before
      else before.(ballots := before.ballots[b.uid := BallotRow(p, b, c, p.debates[b.agendaUid])])
  }

  // ---------------------------------------------------------------- the invariant

  /** Row `rid` of law_reading exists and belongs to that law. */
  ghost predicate Owned(rs: seq<Reading>, lawId: int, rid: int) {
    exists i :: 0 <= i < |rs| && rs[i].id == rid && rs[i].lawId == lawId
  }

  /** No law has two readings with one (chamber, number), and ids are ids. */
  ghost predicate UniqueReadings(p: Public) {
    && (forall i, j :: 0 <= i < j < |p.readings| ==>
          !Matches(p.readings[j], p.readings[i].lawId, (p.readings[i].chamber, p.readings[i].number)))
    && (forall i, j :: 0 <= i < j < |p.readings| ==> p.readings[i].id != p.readings[j].id)
    && (forall i :: 0 <= i < |p.readings| ==> p.readings[i].id < p.nextReading)
  }

  ghost predicate AmendmentsOwn(rs: seq<Reading>, st: AmendmentPages.State) {
    forall u :: u in st.rows && st.rows[u].cols.readingId.Some? ==> Owned(rs, st.rows[u].cols.lawId, st.rows[u].cols.readingId.value)
  }

  ghost predicate TextsOwn(rs: seq<Reading>, st: LawTextProjection.State) {
    forall u :: u in st.rows && st.rows[u].readingId.Some? ==> Owned(rs, st.rows[u].lawId, st.rows[u].readingId.value)
  }

  /** Row `id` of public.amendment exists. */
  ghost predicate IsAmendment(st: AmendmentPages.State, id: nat) { exists u :: u in st.rows && st.rows[u].id == id }

  ghost predicate BallotOwns(rs: seq<Reading>, st: AmendmentPages.State, b: Ballot) {
    && (b.readingId.Some? ==> b.lawId.Some? && Owned(rs, b.lawId.value, b.readingId.value))
    && (b.amendmentId.Some? ==> b.readingId.Some? && IsAmendment(st, b.amendmentId.value))
  }

  ghost predicate BallotsOwn(rs: seq<Reading>, st: AmendmentPages.State, ballots: map<string, Ballot>) {
    forall u :: u in ballots ==> BallotOwns(rs, st, ballots[u])
  }

  ghost predicate LinksOwn(rs: seq<Reading>, links: map<(int, int), Option<int>>) {
    forall k :: k in links && links[k].Some? ==> Owned(rs, k.1, links[k].value)
  }

  /** Distinct sittings have distinct debate ids. */
  ghost predicate UniqueDebates(p: Public) {
    && (forall a, b :: a in p.debates && b in p.debates && p.debates[a] == p.debates[b] ==> a == b)
    && (forall a :: a in p.debates ==> p.debates[a] < p.nextDebate)
  }

  /** Distinct dossiers have distinct law ids, so a row of one law is no row of another. */
  ghost predicate UniqueLaws(p: Public) {
    && (forall a, b :: a in p.laws && b in p.laws && p.laws[a] == p.laws[b] ==> a == b)
    && (forall a :: a in p.laws ==> p.laws[a] < p.nextLaw)
  }

  ghost predicate Inv(p: Public) {
    && UniqueReadings(p) && UniqueDebates(p) && UniqueLaws(p)
    && AmendmentsOwn(p.readings, p.amendments) && TextsOwn(p.readings, p.texts)
    && BallotsOwn(p.readings, p.amendments, p.ballots) && LinksOwn(p.readings, p.debateLaw)
  }

  /** Readings are never removed nor moved to another law; a known link stays known. */
  ghost predicate Keeps(p: Public, p': Public) {
    && (forall l, r :: Owned(p.readings, l, r) ==> Owned(p'.readings, l, r))
    && (forall k :: k in p.debateLaw && p.debateLaw[k].Some? ==> k in p'.debateLaw && p'.debateLaw[k].Some?)
    && (forall d :: d in p.laws ==> d in p'.laws && p'.laws[d] == p.laws[d])
  }

  lemma {:induction false} IdOfIsOwned(rs: seq<Reading>, lawId: int, key: (Chamber, nat))
    requires IdOf(rs, lawId, key).Some?
    ensures Owned(rs, lawId, IdOf(rs, lawId, key).value)
  {
    var init, last := rs[..|rs| - 1], rs[|rs| - 1];
    if Matches(last, lawId, key) {
      assert rs[|rs| - 1].id == IdOf(rs, lawId, key).value;
    } else {
      IdOfIsOwned(init, lawId, key);
      var i :| 0 <= i < |init| && init[i].id == IdOf(rs, lawId, key).value && init[i].lawId == lawId;
      assert rs[i] == init[i];
    }
  }

  lemma {:induction false} IdOfScans(rs: seq<Reading>, lawId: int, key: (Chamber, nat))
    ensures IdOf(rs, lawId, key).None? <==> forall j :: 0 <= j < |rs| ==> !Matches(rs[j], lawId, key)
    ensures IdOf(rs, lawId, key).Some? ==> exists j :: 0 <= j < |rs| && Matches(rs[j], lawId, key) && rs[j].id == IdOf(rs, lawId, key).value
  {
    if rs == [] {
    } else {
      IdOfScans(rs[..|rs| - 1], lawId, key);
      if Matches(rs[|rs| - 1], lawId, key) {
        assert rs[|rs| - 1].id == IdOf(rs, lawId, key).value;
      }
    }
  }

  /** Under uniqueness the index and the lookup of the law projection find the same row. */
  lemma {:induction false} IndexAgreesWithLookup(p: Public, lawId: int, key: (Chamber, nat))
    requires UniqueReadings(p)
    ensures var i := FirstMatch(p.readings, lawId, key);
            IdOf(p.readings, lawId, key) == if i < |p.readings| then Some(p.readings[i].id) else None
  {
    IdOfScans(p.readings, lawId, key);
  }

  // ---------------------------------------------------------------- each piece keeps the invariant

  lemma OwnedGrows(p: Public, p': Public)
    requires Inv(p) && (forall l, r :: Owned(p.readings, l, r) ==> Owned(p'.readings, l, r))
    requires p'.amendments == p.amendments && p'.texts == p.texts && p'.ballots == p.ballots && p'.debateLaw == p.debateLaw
    requires UniqueReadings(p') && UniqueDebates(p') && UniqueLaws(p')
    ensures Inv(p')
  {
  }

  lemma UpdateStaysUnique(p: Public, i: nat, content: string)
    requires UniqueReadings(p) && i < |p.readings|
    ensures UniqueReadings(p.(readings := p.readings[i := p.readings[i].(content := content)]))
  {
  }

  lemma InsertStaysUnique(p: Public, r: Reading)
    requires UniqueReadings(p) && r.id == p.nextReading
    requires forall j :: 0 <= j < |p.readings| ==> !Matches(p.readings[j], r.lawId, (r.chamber, r.number))
    ensures UniqueReadings(p.(readings := p.readings + [r], nextReading := p.nextReading + 1))
  {
  }

  lemma ReadingStaysOwned(p: Public, lawId: int, stage: Stage)
    ensures var (p', id) := WithReading(p, lawId, stage);
            && p' == p.(readings := p'.readings, nextReading := p'.nextReading)
            && (forall l, r :: Owned(p.readings, l, r) ==> Owned(p'.readings, l, r))
            && (id.Some? ==> Owned(p'.readings, lawId, id.value))
  {
    if ReadingOf(stage.code).Some? {
      var i := FirstMatch(p.readings, lawId, ReadingOf(stage.code).value);
      var (p', id) := WithReading(p, lawId, stage);
      forall l, r | Owned(p.readings, l, r) ensures Owned(p'.readings, l, r) {
        var k :| 0 <= k < |p.readings| && p.readings[k].id == r && p.readings[k].lawId == l;
        assert p'.readings[k].id == r && p'.readings[k].lawId == l;
      }
      assert p'.readings[i].id == id.value && p'.readings[i].lawId == lawId;
    }
  }

  lemma ReadingStaysUnique(p: Public, lawId: int, stage: Stage)
    requires UniqueReadings(p)
    ensures UniqueReadings(WithReading(p, lawId, stage).0)
  {
    if ReadingOf(stage.code).Some? {
      var key := ReadingOf(stage.code).value;
      var i := FirstMatch(p.readings, lawId, key);
      if i < |p.readings| {
        UpdateStaysUnique(p, i, stage.content);
      } else {
        InsertStaysUnique(p, Reading(p.nextReading, lawId, key.0, key.1, stage.content));
      }
    }
  }

  lemma ReadingKeeps(p: Public, lawId: int, stage: Stage)
    requires Inv(p)
    ensures var (p', id) := WithReading(p, lawId, stage);
            && Inv(p') && Keeps(p, p')
            && (id.Some? ==> Owned(p'.readings, lawId, id.value))
  {
    ReadingStaysOwned(p, lawId, stage);
    ReadingStaysUnique(p, lawId, stage);
    OwnedGrows(p, WithReading(p, lawId, stage).0);
  }

  lemma KeepsIsTransitive(a: Public, b: Public, c: Public)
    requires Keeps(a, b) && Keeps(b, c)
    ensures Keeps(a, c)
  {
  }

  ghost predicate IdsOwn(rs: seq<Reading>, lawId: int, ids: map<string, int>) {
    forall u :: u in ids ==> Owned(rs, lawId, ids[u])
  }

  lemma {:induction false} ReadingsKeep(p: Public, lawId: int, stages: seq<Stage>)
    requires Inv(p)
    ensures var (p', ids) := WithReadings(p, lawId, stages);
            Inv(p') && Keeps(p, p') && IdsOwn(p'.readings, lawId, ids)
  {
    if stages == [] {
    } else {
      var init, last := stages[..|stages| - 1], stages[|stages| - 1];
      ReadingsKeep(p, lawId, init);
      var (before, ids) := WithReadings(p, lawId, init);
      ReadingKeeps(before, lawId, last);
      var (after, id) := WithReading(before, lawId, last);
      KeepsIsTransitive(p, before, after);
    }
  }

  ghost predicate SittingsOwn(rs: seq<Reading>, lawId: int, d: seq<Sitting>) {
    forall i :: 0 <= i < |d| && d[i].reading.Some? ==> Owned(rs, lawId, d[i].reading.value)
  }

  lemma {:induction false} PutOwns(rs: seq<Reading>, lawId: int, d: seq<Sitting>, uid: string, reading: Option<int>)
    requires SittingsOwn(rs, lawId, d) && (reading.Some? ==> Owned(rs, lawId, reading.value))
    ensures SittingsOwn(rs, lawId, Put(d, uid, reading))
  {
    if d == [] {
    } else if d[0].uid != uid {
      PutOwns(rs, lawId, d[1..], uid, reading);
    }
  }

  lemma {:induction false} PutAllOwns(rs: seq<Reading>, lawId: int, d: seq<Sitting>, uids: seq<string>, reading: Option<int>)
    requires SittingsOwn(rs, lawId, d) && (reading.Some? ==> Owned(rs, lawId, reading.value))
    ensures SittingsOwn(rs, lawId, PutAll(d, uids, reading))
  {
    if uids == [] {
    } else {
      PutAllOwns(rs, lawId, d, uids[..|uids| - 1], reading);
      PutOwns(rs, lawId, PutAll(d, uids[..|uids| - 1], reading), uids[|uids| - 1], reading);
    }
  }

  lemma {:induction false} FromStagesOwns(rs: seq<Reading>, lawId: int, stages: seq<Stage>, ids: map<string, int>)
    requires IdsOwn(rs, lawId, ids)
    ensures SittingsOwn(rs, lawId, FromStages(stages, ids))
  {
    if stages == [] {
    } else {
      var last := stages[|stages| - 1];
      FromStagesOwns(rs, lawId, stages[..|stages| - 1], ids);
      PutAllOwns(rs, lawId, FromStages(stages[..|stages| - 1], ids), last.sittings,
                 if last.uid in ids then Some(ids[last.uid]) else None);
    }
  }

  lemma {:induction false} WithAgendaOwns(rs: seq<Reading>, lawId: int, d: seq<Sitting>, agenda: seq<string>)
    requires SittingsOwn(rs, lawId, d)
    ensures SittingsOwn(rs, lawId, WithAgenda(d, agenda))
  {
    if agenda == [] {
    } else {
      WithAgendaOwns(rs, lawId, d, agenda[..|agenda| - 1]);
    }
  }

  lemma {:induction false} LinkedAllKeeps(p: Public, lawId: int, d: seq<Sitting>)
    requires LinksOwn(p.readings, p.debateLaw) && SittingsOwn(p.readings, lawId, d)
    ensures var links := LinkedAll(p, lawId, d);
            && LinksOwn(p.readings, links)
            && forall k :: k in p.debateLaw && p.debateLaw[k].Some? ==> k in links && links[k].Some?
  {
    if d == [] {
    } else {
      assert SittingsOwn(p.readings, lawId, d[..|d| - 1]);
      LinkedAllKeeps(p, lawId, d[..|d| - 1]);
    }
  }

  lemma NewLawKeeps(p: Public, uid: string)
    requires Inv(p)
    ensures Inv(WithLaw(p, uid)) && Keeps(p, WithLaw(p, uid)) && uid in WithLaw(p, uid).laws
  {
    OwnedGrows(p, WithLaw(p, uid));
  }

  lemma NewLinksKeep(p: Public, lawId: int, d: seq<Sitting>)
    requires Inv(p) && SittingsOwn(p.readings, lawId, d)
    ensures var after := p.(debateLaw := LinkedAll(p, lawId, d)); Inv(after) && Keeps(p, after)
  {
    LinkedAllKeeps(p, lawId, d);
  }

  /** One transaction of the law projection: the law, its readings, its links. */
  lemma LawKeeps(p: Public, d: Dossier)
    requires Inv(p)
    ensures Inv(LawProjected(p, d)) && Keeps(p, LawProjected(p, d))
  {
    if d.isLaw {
      var p1 := WithLaw(p, d.uid);
      NewLawKeeps(p, d.uid);
      var lawId := p1.laws[d.uid];
      ReadingsKeep(p1, lawId, d.stages);
      var (p2, ids) := WithReadings(p1, lawId, d.stages);
      FromStagesOwns(p2.readings, lawId, d.stages, ids);
      WithAgendaOwns(p2.readings, lawId, FromStages(d.stages, ids), d.agendaUids);
      NewLinksKeep(p2, lawId, WithAgenda(FromStages(d.stages, ids), d.agendaUids));
      KeepsIsTransitive(p, p1, p2);
      KeepsIsTransitive(p, p2, LawProjected(p, d));
    }
  }

  lemma {:induction false} LawsKeep(p: Public, ds: seq<Dossier>)
    requires Inv(p)
    ensures Inv(LawsProjected(p, ds)) && Keeps(p, LawsProjected(p, ds))
  {
    if ds == [] {
    } else {
      LawsKeep(p, ds[..|ds| - 1]);
      LawKeeps(LawsProjected(p, ds[..|ds| - 1]), ds[|ds| - 1]);
      KeepsIsTransitive(p, LawsProjected(p, ds[..|ds| - 1]), LawsProjected(p, ds));
    }
  }

  lemma {:induction false} AmendmentIndexOwns(p: Public, stages: seq<Stage>)
    ensures forall k :: k in AmendmentReadings(p, stages) ==> Owned(p.readings, k.0, AmendmentReadings(p, stages)[k])
  {
    if stages == [] {
    } else {
      var s := stages[|stages| - 1];
      AmendmentIndexOwns(p, stages[..|stages| - 1]);
      if s.dossier in p.laws && ReadingOf(s.code).Some? && IdOf(p.readings, p.laws[s.dossier], ReadingOf(s.code).value).Some? {
        IdOfIsOwned(p.readings, p.laws[s.dossier], ReadingOf(s.code).value);
      }
    }
  }

  lemma NewAmendmentsKeep(p: Public, st: AmendmentPages.State)
    requires Inv(p) && AmendmentsOwn(p.readings, st)
    requires forall id :: IsAmendment(p.amendments, id) ==> IsAmendment(st, id)
    ensures Inv(p.(amendments := st)) && Keeps(p, p.(amendments := st))
  {
  }

  lemma AmendmentsKeep(p: Public, rows: seq<AmendmentPages.RawAmendment>, stages: seq<Stage>,
                       deputies: map<string, int>, groups: map<string, int>)
    requires Inv(p)
    ensures var p' := AmendmentsProjected(p, rows, stages, deputies, groups); Inv(p') && Keeps(p, p')
  {
    var l := AmendmentPages.Lookups(p.laws, deputies, groups, AmendmentReadings(p, stages));
    var kept := AmendmentPages.KeptRows(rows, l);
    var after := AmendmentPages.AllUpserted(p.amendments, kept);
    AmendmentIndexOwns(p, stages);
    forall u | u in after.rows && after.rows[u].cols.readingId.Some?
      ensures Owned(p.readings, after.rows[u].cols.lawId, after.rows[u].cols.readingId.value)
    {
      AmendmentPages.RowAfter(p.amendments, kept, u);
      if r :| r in kept && r.uid == u && after.rows[u].cols == r.cols {
        AmendmentPages.KeptRowsAreFromPage(rows, l, r);
      }
    }
    forall id | IsAmendment(p.amendments, id) ensures IsAmendment(after, id) {
      var u :| u in p.amendments.rows && p.amendments.rows[u].id == id;
      AmendmentPages.RowAfter(p.amendments, kept, u);
      assert after.rows[u].id == id;
    }
    NewAmendmentsKeep(p, after);
  }

  ghost predicate TextIndexOwned(p: Public, m: map<(Option<string>, string), Option<int>>) {
    forall k :: k in m && m[k].Some? ==> k.0.Some? && k.0.value in p.laws && Owned(p.readings, p.laws[k.0.value], m[k].value)
  }

  lemma PutTextOwns(p: Public, m: map<(Option<string>, string), Option<int>>, dossier: string, texte: Option<string>, rid: Option<int>)
    requires TextIndexOwned(p, m) && dossier in p.laws && (rid.Some? ==> Owned(p.readings, p.laws[dossier], rid.value))
    ensures TextIndexOwned(p, PutText(m, dossier, texte, rid))
  {
  }

  lemma {:induction false} TextIndexOwns(p: Public, stages: seq<Stage>)
    ensures TextIndexOwned(p, TextReadings(p, stages))
  {
    if stages == [] {
    } else {
      var s, m := stages[|stages| - 1], TextReadings(p, stages[..|stages| - 1]);
      TextIndexOwns(p, stages[..|stages| - 1]);
      if s.dossier in p.laws && ReadingOf(s.code).Some? {
        var rid := IdOf(p.readings, p.laws[s.dossier], ReadingOf(s.code).value);
        if rid.Some? { IdOfIsOwned(p.readings, p.laws[s.dossier], ReadingOf(s.code).value); }
        PutTextOwns(p, m, s.dossier, s.texte, rid);
        PutTextOwns(p, PutText(m, s.dossier, s.texte, rid), s.dossier, s.commissionTexte, rid);
        PutTextOwns(p, PutText(PutText(m, s.dossier, s.texte, rid), s.dossier, s.commissionTexte, rid), s.dossier, s.adoptedTexte, rid);
      }
    }
  }

  /** Whatever reading the lookups give for a text of a dossier belongs to the law they give for it. */
  ghost predicate LookupsOwn(rs: seq<Reading>, l: LawTextProjection.Lookups) {
    forall d, u :: LawTextProjection.Known(l, d) && (d, u) in l.readings && l.readings[(d, u)].Some?
      ==> Owned(rs, l.laws[d.value], l.readings[(d, u)].value)
  }

  lemma TextLookupsOwn(p: Public, stages: seq<Stage>, numbers: map<string, Option<int>>)
    ensures LookupsOwn(p.readings, TextLookups(p, stages, numbers))
  {
    TextIndexOwns(p, stages);
  }

  lemma OneDossierOwns(rs: seq<Reading>, st: LawTextProjection.State, versions: seq<LawTextProjection.VersionOrder.Version>,
                       d: Option<string>, l: LawTextProjection.Lookups)
    requires TextsOwn(rs, st) && LookupsOwn(rs, l) && LawTextProjection.Known(l, d)
    ensures TextsOwn(rs, LawTextProjection.AllUpserted(st, LawTextProjection.DossierWrites(versions, d, l)))
  {
    var ws := LawTextProjection.DossierWrites(versions, d, l);
    var after := LawTextProjection.AllUpserted(st, ws);
    forall u | u in after.rows && after.rows[u].readingId.Some? ensures Owned(rs, after.rows[u].lawId, after.rows[u].readingId.value) {
      LawTextProjection.RowAfter(st, ws, u);
    }
  }

  lemma {:induction false} DossiersOfTextsOwn(rs: seq<Reading>, st: LawTextProjection.State, texts: seq<LawTextProjection.RawText>,
                                              ds: seq<Option<string>>, l: LawTextProjection.Lookups)
    requires TextsOwn(rs, st) && LookupsOwn(rs, l)
    ensures TextsOwn(rs, LawTextProjection.AllProjected(st, texts, ds, l))
  {
    if ds == [] {
    } else {
      var d := ds[|ds| - 1];
      DossiersOfTextsOwn(rs, st, texts, ds[..|ds| - 1], l);
      if LawTextProjection.Known(l, d) {
        OneDossierOwns(rs, LawTextProjection.AllProjected(st, texts, ds[..|ds| - 1], l), LawTextProjection.Members(texts, d), d, l);
      }
    }
  }

  lemma NewTextsKeep(p: Public, st: LawTextProjection.State)
    requires Inv(p) && TextsOwn(p.readings, st)
    ensures Inv(p.(texts := st)) && Keeps(p, p.(texts := st))
  {
  }

  lemma TextsKeep(p: Public, raw: seq<LawTextProjection.RawText>, legislature: int, l: LawTextProjection.Lookups)
    requires Inv(p) && LookupsOwn(p.readings, l)
    ensures var st := LawTextProjection.RunOver(p.texts, raw, legislature, l);
            Inv(p.(texts := st)) && Keeps(p, p.(texts := st))
  {
    var texts := LawTextProjection.Selected(raw, legislature);
    DossiersOfTextsOwn(p.readings, p.texts, texts, LawTextProjection.Dossiers(texts), l);
    NewTextsKeep(p, LawTextProjection.RunOver(p.texts, raw, legislature, l));
  }

  lemma {:induction false} PutSittingsIs(m: map<(string, string), StageReading>, dossier: string, sittings: seq<string>, r: StageReading)
    ensures var m' := PutSittings(m, dossier, sittings, r);
            forall k :: k in m' ==> (k in m && m'[k] == m[k]) || (k.0 == dossier && m'[k] == r)
  {
    if sittings == [] {
    } else {
      PutSittingsIs(m, dossier, sittings[..|sittings| - 1], r);
    }
  }

  lemma {:induction false} BallotIndexOwns(p: Public, stages: seq<Stage>)
    ensures forall k :: k in BallotReadings(p, stages) ==> k.0 in p.laws && Owned(p.readings, p.laws[k.0], BallotReadings(p, stages)[k].id)
  {
    if stages == [] {
    } else {
      var s := stages[|stages| - 1];
      BallotIndexOwns(p, stages[..|stages| - 1]);
      if s.dossier in p.laws && ReadingOf(s.code).Some? && IdOf(p.readings, p.laws[s.dossier], ReadingOf(s.code).value).Some? {
        var rid := IdOf(p.readings, p.laws[s.dossier], ReadingOf(s.code).value).value;
        IdOfIsOwned(p.readings, p.laws[s.dossier], ReadingOf(s.code).value);
        PutSittingsIs(BallotReadings(p, stages[..|stages| - 1]), s.dossier, s.sittings, StageReading(rid, TextesOf(s)));
      }
    }
  }

  /** The amendment of a scrutin is a public one, and there is none without a reading. */
  lemma HitIsPublic(p: Public, b: RawBallot, c: Scene)
    requires IsListing(c.listing) && HitFor(p, b, c).Some?
    ensures StageOf(p, b, c).Some?
    ensures HitFor(p, b, c).value.uid in p.amendments.rows && p.amendments.rows[HitFor(p, b, c).value.uid].id == HitFor(p, b, c).value.id
  {
    var rows, textes := Joined(p.amendments, c.seances), c.listing(TextesFor(p, b, c));
    BallotLinks.FindIsOnTheReading(rows, b.number, b.day, textes);
    var r :| r in rows && r.texte in textes && r.hit == HitFor(p, b, c).value;
    assert r.texte in multiset(textes);
    FilterMapMembers(PublicAmendment(p.amendments), c.seances, r);
    var a :| a in c.seances && PublicAmendment(p.amendments)(a) == Some(r);
  }

  lemma BallotRowOwns(p: Public, b: RawBallot, c: Scene, debateId: int)
    requires IsListing(c.listing)
    ensures BallotOwns(p.readings, p.amendments, BallotRow(p, b, c, debateId))
  {
    BallotIndexOwns(p, c.stages);
    if HitFor(p, b, c).Some? { HitIsPublic(p, b, c); }
  }

  lemma {:induction false} BallotsKeep(p: Public, bs: seq<RawBallot>, c: Scene)
    requires Inv(p) && IsListing(c.listing)
    ensures var p' := BallotsProjected(p, bs, c);
            Inv(p') && p' == p.(ballots := p'.ballots)
  {
    if bs == [] {
    } else {
      BallotsKeep(p, bs[..|bs| - 1], c);
      if bs[|bs| - 1].agendaUid in p.debates { BallotRowOwns(p, bs[|bs| - 1], c, p.debates[bs[|bs| - 1].agendaUid]); }
    }
  }

  // ---------------------------------------------------------------- any sequence of runs

  /** One run of a projection, with the raw data it finds; the agenda and debate runs only add sittings. */
  datatype Run =
    | Laws(dossiers: seq<Dossier>)
    | Amendments(rows: seq<AmendmentPages.RawAmendment>, amendmentStages: seq<Stage>, deputies: map<string, int>, groups: map<string, int>)
    | Texts(texts: seq<LawTextProjection.RawText>, legislature: int, textStages: seq<Stage>, numbers: map<string, Option<int>>)
    | Ballots(ballots: seq<RawBallot>, scene: Scene)
    | NewSitting(uid: string)

  function After(p: Public, r: Run): Public {
    match r
    case Laws(ds) => LawsProjected(p, ds)
    case Amendments(rows, stages, deputies, groups) => AmendmentsProjected(p, rows, stages, deputies, groups)
    case Texts(raw, legislature, stages, numbers) => TextsProjected(p, raw, legislature, stages, numbers)
    case Ballots(bs, scene) => BallotsProjected(p, bs, scene)
    case NewSitting(uid) =>
      if uid in p.debates then p else p.(debates := p.debates[uid := p.nextDebate], nextDebate := p.nextDebate + 1)
  }

  function AfterAll(p: Public, rs: seq<Run>): Public {
    if rs == [] then p else After(AfterAll(p, rs[..|rs| - 1]), rs[|rs| - 1])
  }

  /** One run after the other. */
  lemma {:induction false} RunsFollowEachOther(p: Public, a: seq<Run>, b: seq<Run>, r: Run)
    ensures AfterAll(p, a + b) == AfterAll(AfterAll(p, a), b)
    ensures AfterAll(p, [r]) == After(p, r) && AfterAll(p, []) == p
  {
    assert [r][..0] == [];
    assert AfterAll(p, [r][..0]) == p;
    if b == [] {
      assert a + b == a;
    } else {
      assert (a + b)[..|a + b| - 1] == a + b[..|b| - 1];
      RunsFollowEachOther(p, a, b[..|b| - 1], r);
    }
  }

  /** A set is iterated as its elements, each once. */
  ghost predicate IsRun(r: Run) { r.Ballots? ==> IsListing(r.scene.listing) }

  lemma LawRunKeeps(p: Public, r: Run)
    requires Inv(p) && r.Laws?
    ensures Inv(After(p, r)) && Keeps(p, After(p, r))
  {
    LawsKeep(p, r.dossiers);
  }

  lemma AmendmentRunKeeps(p: Public, r: Run)
    requires Inv(p) && r.Amendments?
    ensures Inv(After(p, r)) && Keeps(p, After(p, r))
  {
    AmendmentsKeep(p, r.rows, r.amendmentStages, r.deputies, r.groups);
  }

  lemma TextRunKeeps(p: Public, r: Run)
    requires Inv(p) && r.Texts?
    ensures Inv(After(p, r)) && Keeps(p, After(p, r))
  {
    TextLookupsOwn(p, r.textStages, r.numbers);
    TextsKeep(p, r.texts, r.legislature, TextLookups(p, r.textStages, r.numbers));
  }

  lemma BallotRunKeeps(p: Public, r: Run)
    requires Inv(p) && r.Ballots? && IsListing(r.scene.listing)
    ensures Inv(After(p, r)) && Keeps(p, After(p, r))
  {
    BallotsKeep(p, r.ballots, r.scene);
  }

  lemma SittingRunKeeps(p: Public, r: Run)
    requires Inv(p) && r.NewSitting?
    ensures Inv(After(p, r)) && Keeps(p, After(p, r))
  {
    if r.uid in p.debates {
    } else {
      OwnedGrows(p, After(p, r));
    }
  }

  lemma RunKeeps(p: Public, r: Run)
    requires Inv(p) && IsRun(r)
    ensures Inv(After(p, r)) && Keeps(p, After(p, r))
  {
    match r {
      case Laws(_) => LawRunKeeps(p, r);
      case Amendments(_, _, _, _) => AmendmentRunKeeps(p, r);
      case Texts(_, _, _, _) => TextRunKeeps(p, r);
      case Ballots(_, _) => BallotRunKeeps(p, r);
      case NewSitting(_) => SittingRunKeeps(p, r);
    }
  }

  /**
   Over any sequence of runs: no law gets two readings with one (chamber, number); every
   reading id held by an amendment, a text, a ballot or a sitting link is one of that row's
   own law; a link whose reading is known never loses it.
   */
  lemma {:induction false} AnyRunsKeep(p: Public, rs: seq<Run>)
    requires Inv(p) && forall r :: r in rs ==> IsRun(r)
    ensures Inv(AfterAll(p, rs)) && Keeps(p, AfterAll(p, rs))
  {
    if rs == [] {
    } else {
      assert rs[|rs| - 1] in rs && forall r :: r in rs[..|rs| - 1] ==> r in rs;
      AnyRunsKeep(p, rs[..|rs| - 1]);
      RunKeeps(AfterAll(p, rs[..|rs| - 1]), rs[|rs| - 1]);
      KeepsIsTransitive(p, AfterAll(p, rs[..|rs| - 1]), AfterAll(p, rs));
    }
  }

  const EMPTY := Public(
    map[], 1, [], 1, map[], 1, map[],
    AmendmentPages.State(map[], 1, 0, 0), LawTextProjection.State(map[], 1, 0, 0, 0, 0), map[])

  /** In particular from an empty schema. */
  lemma AnyRunsFromEmpty(rs: seq<Run>)
    requires forall r :: r in rs ==> IsRun(r)
    ensures Inv(AfterAll(EMPTY, rs))
  {
    AnyRunsKeep(EMPTY, rs);
  }
}

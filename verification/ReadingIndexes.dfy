/** What the three in-memory indexes of readings answer, and what the rows built from them say. */
module ReadingIndexes {
  import opened Prelude
  import opened ReadingCodes
  import opened LastWins
  import opened ReadingLinks
  import opened SittingLinks
  import AmendmentPages
  import BallotLinks

  /** The law of the stage is public, and its reading row, if there is one, is `rid`. */
  ghost predicate ReadingOfStage(p: Public, s: Stage, lawId: int, rid: int) {
    && s.dossier in p.laws && p.laws[s.dossier] == lawId
    && ReadingOf(s.code).Some? && IsReadingRow(p.readings, lawId, ReadingOf(s.code).value, rid)
  }

  lemma IndexedIsReading(p: Public, s: Stage)
    requires s.dossier in p.laws && ReadingOf(s.code).Some?
    ensures var rid := IdOf(p.readings, p.laws[s.dossier], ReadingOf(s.code).value);
            && (rid.Some? ==> ReadingOfStage(p, s, p.laws[s.dossier], rid.value))
            && (rid.None? ==> forall id :: !ReadingOfStage(p, s, p.laws[s.dossier], id))
  {
    IdOfScans(p.readings, p.laws[s.dossier], ReadingOf(s.code).value);
  }

  // ---------------------------------------------------------------- amendments

  /** Commission amendments target the deposited text, séance amendments the commission's. */
  predicate TargetOf(s: Stage, texte: string) {
    texte != "" && (s.texte == Some(texte) || s.commissionTexte == Some(texte))
  }

  /** What a stage says of a text of a law: the reading row, when the index finds one. */
  function AmendmentSays(p: Public): Says<Stage, (int, string), int> {
    (s: Stage, k: (int, string)) =>
      if TargetOf(s, k.1) && Get(p.laws, s.dossier) == Some(k.0) && ReadingOf(s.code).Some?
      then IdOf(p.readings, k.0, ReadingOf(s.code).value) else None
  }

  ghost predicate AmendmentAnswer(p: Public, s: Stage, k: (int, string), rid: int) {
    TargetOf(s, k.1) && ReadingOfStage(p, s, k.0, rid)
  }

  lemma AmendmentSaysIs(p: Public, s: Stage, k: (int, string))
    ensures var said := AmendmentSays(p)(s, k);
            && (said.Some? ==> AmendmentAnswer(p, s, k, said.value))
            && (said.None? ==> forall rid :: !AmendmentAnswer(p, s, k, rid))
  {
    if s.dossier in p.laws && ReadingOf(s.code).Some? { IndexedIsReading(p, s); }
  }

  lemma PutTexteIs(m: map<(int, string), int>, lawId: int, texte: Option<string>, rid: int, k: (int, string))
    ensures Get(PutTexte(m, lawId, texte, rid), k) == if k.0 == lawId && k.1 != "" && texte == Some(k.1) then Some(rid) else Get(m, k)
  {
    if Truthy(texte) { assert k == (lawId, texte.value) <==> k.0 == lawId && texte == Some(k.1); }
  }

  lemma AmendmentStep(p: Public, stages: seq<Stage>, k: (int, string))
    requires stages != []
    ensures var said := AmendmentSays(p)(stages[|stages| - 1], k);
            Get(AmendmentReadings(p, stages), k) == if said.Some? then said else Get(AmendmentReadings(p, stages[..|stages| - 1]), k)
  {
    var s, m := stages[|stages| - 1], AmendmentReadings(p, stages[..|stages| - 1]);
    if s.dossier in p.laws && ReadingOf(s.code).Some? {
      var lawId := p.laws[s.dossier];
      var rid := IdOf(p.readings, lawId, ReadingOf(s.code).value);
      if rid.Some? {
        PutTexteIs(m, lawId, s.texte, rid.value, k);
        PutTexteIs(PutTexte(m, lawId, s.texte, rid.value), lawId, s.commissionTexte, rid.value, k);
      }
    }
  }

  lemma {:induction false} AmendmentIndexAnswers(p: Public, stages: seq<Stage>)
    ensures Answers(AmendmentReadings(p, stages), AmendmentSays(p), stages)
  {
    if stages == [] {
    } else {
      AmendmentIndexAnswers(p, stages[..|stages| - 1]);
      forall k ensures Get(AmendmentReadings(p, stages), k) == LastAnswer(AmendmentSays(p), stages, k) { AmendmentStep(p, stages, k); }
    }
  }

  /** The index knows a text of a law exactly when a stage with a row has it, and gives such a row. */
  lemma AmendmentIndexIs(p: Public, stages: seq<Stage>, k: (int, string))
    ensures k in AmendmentReadings(p, stages) <==> exists s, rid :: s in stages && AmendmentAnswer(p, s, k, rid)
    ensures k in AmendmentReadings(p, stages) ==>
              exists s :: s in stages && AmendmentAnswer(p, s, k, AmendmentReadings(p, stages)[k])
  {
    var says := AmendmentSays(p);
    AmendmentIndexAnswers(p, stages);
    assert Get(AmendmentReadings(p, stages), k) == LastAnswer(says, stages, k);
    SilentRows(says, stages, k);
    forall s { AmendmentSaysIs(p, s, k); }
    if k in AmendmentReadings(p, stages) {
      SomeRowDecides(says, stages, k);
      var i :| DecidedAt(says, stages, k, i) && says(stages[i], k) == LastAnswer(says, stages, k);
      assert stages[i] in stages;
    }
  }

  /** The query lists the stages in any order: all listings give one index iff stages with one text of one law agree. */
  lemma AmendmentIndexAnyOrderIff(p: Public, stages: seq<Stage>)
    ensures (forall other :: Permuted(stages, other) ==> AmendmentReadings(p, other) == AmendmentReadings(p, stages))
       <==> Agree(AmendmentSays(p), stages)
  {
    forall other { AmendmentIndexAnswers(p, other); }
    AnyListingIff(AmendmentSays(p), (rows: seq<Stage>) => AmendmentReadings(p, rows), stages);
  }

  /** The reading of a projected amendment is that of a stage of its own law which has its text. */
  lemma AmendmentHasItsReading(p: Public, rows: seq<AmendmentPages.RawAmendment>, stages: seq<Stage>,
                               deputies: map<string, int>, groups: map<string, int>, a: AmendmentPages.RawAmendment)
    requires AmendmentPages.NoRepeatedAmendment(rows) && a in rows
    requires AmendmentPages.Kept(a, AmendmentPages.Lookups(p.laws, deputies, groups, AmendmentReadings(p, stages)))
    ensures var after := AmendmentsProjected(p, rows, stages, deputies, groups).amendments.rows;
            && a.uid in after && a.dossierUid.Some? && a.dossierUid.value in p.laws
            && after[a.uid].cols.lawId == p.laws[a.dossierUid.value]
            && (after[a.uid].cols.readingId.Some? <==>
                  exists s, rid :: s in stages && AmendmentAnswer(p, s, (after[a.uid].cols.lawId, a.texteUid), rid))
            && (after[a.uid].cols.readingId.Some? ==>
                  exists s :: s in stages
                    && AmendmentAnswer(p, s, (after[a.uid].cols.lawId, a.texteUid), after[a.uid].cols.readingId.value))
  {
    var l := AmendmentPages.Lookups(p.laws, deputies, groups, AmendmentReadings(p, stages));
    AmendmentPages.EachAmendmentIsProjected(p.amendments, rows, l, a);
    AmendmentIndexIs(p, stages, (p.laws[a.dossierUid.value], a.texteUid));
  }

  // ---------------------------------------------------------------- law texts

  /** The adopted text counts as well here. */
  predicate VersionOf(p: Public, s: Stage, k: (Option<string>, string)) {
    && s.dossier in p.laws && ReadingOf(s.code).Some? && k.0 == Some(s.dossier) && k.1 != ""
    && (s.texte == Some(k.1) || s.commissionTexte == Some(k.1) || s.adoptedTexte == Some(k.1))
  }

  /** What a stage says of a text of a dossier: its reading, even when that reading is absent. */
  function TextSays(p: Public): Says<Stage, (Option<string>, string), Option<int>> {
    (s: Stage, k: (Option<string>, string)) =>
      if VersionOf(p, s, k) then Some(IdOf(p.readings, p.laws[s.dossier], ReadingOf(s.code).value)) else None
  }

  ghost predicate LastVersionAt(p: Public, stages: seq<Stage>, k: (Option<string>, string), i: int) {
    0 <= i < |stages| && VersionOf(p, stages[i], k) && forall j :: i < j < |stages| ==> !VersionOf(p, stages[j], k)
  }

  lemma PutTextIs(m: map<(Option<string>, string), Option<int>>, dossier: string, texte: Option<string>, rid: Option<int>, k: (Option<string>, string))
    ensures Get(PutText(m, dossier, texte, rid), k) ==
            if k.0 == Some(dossier) && k.1 != "" && texte == Some(k.1) then Some(rid) else Get(m, k)
  {
    if Truthy(texte) { assert k == (Some(dossier), texte.value) <==> k.0 == Some(dossier) && texte == Some(k.1); }
  }

  lemma TextStep(p: Public, stages: seq<Stage>, k: (Option<string>, string))
    requires stages != []
    ensures var said := TextSays(p)(stages[|stages| - 1], k);
            Get(TextReadings(p, stages), k) == if said.Some? then said else Get(TextReadings(p, stages[..|stages| - 1]), k)
  {
    var s, m := stages[|stages| - 1], TextReadings(p, stages[..|stages| - 1]);
    if s.dossier in p.laws && ReadingOf(s.code).Some? {
      var rid := IdOf(p.readings, p.laws[s.dossier], ReadingOf(s.code).value);
      var m1 := PutText(m, s.dossier, s.texte, rid);
      var m2 := PutText(m1, s.dossier, s.commissionTexte, rid);
      PutTextIs(m, s.dossier, s.texte, rid, k);
      PutTextIs(m1, s.dossier, s.commissionTexte, rid, k);
      PutTextIs(m2, s.dossier, s.adoptedTexte, rid, k);
    }
  }

  lemma {:induction false} TextIndexAnswers(p: Public, stages: seq<Stage>)
    ensures Answers(TextReadings(p, stages), TextSays(p), stages)
  {
    if stages == [] {
    } else {
      TextIndexAnswers(p, stages[..|stages| - 1]);
      forall k ensures Get(TextReadings(p, stages), k) == LastAnswer(TextSays(p), stages, k) { TextStep(p, stages, k); }
    }
  }

  /** Here the last stage that has the text decides, even to answer that its reading is absent. */
  lemma TextIndexIs(p: Public, stages: seq<Stage>, k: (Option<string>, string))
    ensures k in TextReadings(p, stages) <==> exists i :: LastVersionAt(p, stages, k, i)
    ensures forall i :: LastVersionAt(p, stages, k, i) ==>
              k in TextReadings(p, stages)
              && TextReadings(p, stages)[k] == IdOf(p.readings, p.laws[stages[i].dossier], ReadingOf(stages[i].code).value)
  {
    var says := TextSays(p);
    TextIndexAnswers(p, stages);
    assert Get(TextReadings(p, stages), k) == LastAnswer(says, stages, k);
    forall i | LastVersionAt(p, stages, k, i) ensures LastAnswer(says, stages, k) == says(stages[i], k) {
      AnswerOfLast(says, stages, k, i);
    }
    if k in TextReadings(p, stages) {
      SomeRowDecides(says, stages, k);
      var i :| DecidedAt(says, stages, k, i);
      assert LastVersionAt(p, stages, k, i);
    }
  }

  /** All listings of the stages give one index iff stages with one text of one dossier agree, absent readings included. */
  lemma TextIndexAnyOrderIff(p: Public, stages: seq<Stage>)
    ensures (forall other :: Permuted(stages, other) ==> TextReadings(p, other) == TextReadings(p, stages))
       <==> Agree(TextSays(p), stages)
  {
    forall other { TextIndexAnswers(p, other); }
    AnyListingIff(TextSays(p), (rows: seq<Stage>) => TextReadings(p, rows), stages);
  }

  // ---------------------------------------------------------------- ballots

  /** What a stage says of a sitting of a dossier: its reading row, when there is one, and its texts. */
  function BallotSays(p: Public): Says<Stage, (string, string), StageReading> {
    (s: Stage, k: (string, string)) =>
      if s.dossier == k.0 && k.1 in s.sittings && s.dossier in p.laws && ReadingOf(s.code).Some?
         && IdOf(p.readings, p.laws[s.dossier], ReadingOf(s.code).value).Some?
      then Some(StageReading(IdOf(p.readings, p.laws[s.dossier], ReadingOf(s.code).value).value, TextesOf(s))) else None
  }

  ghost predicate BallotAnswer(p: Public, s: Stage, k: (string, string), rid: int) {
    s.dossier == k.0 && k.1 in s.sittings && s.dossier in p.laws && ReadingOfStage(p, s, p.laws[s.dossier], rid)
  }

  lemma BallotSaysIs(p: Public, s: Stage, k: (string, string))
    ensures var said := BallotSays(p)(s, k);
            && (said.Some? ==> BallotAnswer(p, s, k, said.value.id) && said.value.textes == TextesOf(s))
            && (said.None? ==> forall rid :: !BallotAnswer(p, s, k, rid))
  {
    if s.dossier in p.laws && ReadingOf(s.code).Some? { IndexedIsReading(p, s); }
  }

  lemma {:induction false} PutSittingsKeys(m: map<(string, string), StageReading>, dossier: string, sittings: seq<string>, r: StageReading, k: (string, string))
    ensures Get(PutSittings(m, dossier, sittings, r), k) == if k.0 == dossier && k.1 in sittings then Some(r) else Get(m, k)
  {
    if sittings == [] {
    } else {
      var init := sittings[..|sittings| - 1];
      PutSittingsKeys(m, dossier, init, r, k);
      assert forall x :: x in sittings <==> x in init || x == sittings[|sittings| - 1];
    }
  }

  lemma {:induction false} BallotIndexAnswers(p: Public, stages: seq<Stage>)
    ensures Answers(BallotReadings(p, stages), BallotSays(p), stages)
  {
    if stages == [] {
    } else {
      var init, s := stages[..|stages| - 1], stages[|stages| - 1];
      BallotIndexAnswers(p, init);
      if s.dossier in p.laws && ReadingOf(s.code).Some? {
        var rid := IdOf(p.readings, p.laws[s.dossier], ReadingOf(s.code).value);
        if rid.Some? {
          forall k { PutSittingsKeys(BallotReadings(p, init), s.dossier, s.sittings, StageReading(rid.value, TextesOf(s)), k); }
        }
      }
    }
  }

  /** The index knows a sitting of a dossier exactly when a stage with a row names it, and gives the row and texts of such a stage. */
  lemma BallotIndexIs(p: Public, stages: seq<Stage>, k: (string, string))
    ensures k in BallotReadings(p, stages) <==> exists s, rid :: s in stages && BallotAnswer(p, s, k, rid)
    ensures k in BallotReadings(p, stages) ==>
              exists s :: s in stages && BallotAnswer(p, s, k, BallotReadings(p, stages)[k].id)
                          && BallotReadings(p, stages)[k].textes == TextesOf(s)
  {
    var says := BallotSays(p);
    BallotIndexAnswers(p, stages);
    assert Get(BallotReadings(p, stages), k) == LastAnswer(says, stages, k);
    SilentRows(says, stages, k);
    forall s { BallotSaysIs(p, s, k); }
    if k in BallotReadings(p, stages) {
      SomeRowDecides(says, stages, k);
      var i :| DecidedAt(says, stages, k, i) && says(stages[i], k) == LastAnswer(says, stages, k);
      assert stages[i] in stages;
    }
  }

  /** All listings of the stages give one index iff stages that name one sitting of one dossier have one reading and the same texts. */
  lemma BallotIndexAnyOrderIff(p: Public, stages: seq<Stage>)
    ensures (forall other :: Permuted(stages, other) ==> BallotReadings(p, other) == BallotReadings(p, stages))
       <==> Agree(BallotSays(p), stages)
  {
    forall other { BallotIndexAnswers(p, other); }
    AnyListingIff(BallotSays(p), (rows: seq<Stage>) => BallotReadings(p, rows), stages);
  }

  ghost predicate DistinctBallots(bs: seq<RawBallot>) {
    forall i, j :: 0 <= i < j < |bs| ==> bs[i].uid != bs[j].uid
  }

  lemma {:induction false} EachBallotLands(p: Public, bs: seq<RawBallot>, c: Scene, k: nat)
    requires DistinctBallots(bs) && k < |bs| && bs[k].agendaUid in p.debates
    ensures var after := BallotsProjected(p, bs, c);
            && bs[k].uid in after.ballots
            && after.ballots[bs[k].uid] == BallotRow(p, bs[k], c, p.debates[bs[k].agendaUid])
    decreases |bs|
  {
    var init, last := bs[..|bs| - 1], bs[|bs| - 1];
    if k < |init| {
      assert init[k] == bs[k] && bs[k].uid != last.uid;
      EachBallotLands(p, init, c, k);
    }
  }

  /** The séance amendment is public under that id, on one of the texts, with the number quoted, whole or bare. */
  ghost predicate IsQuoted(p: Public, a: Seance, b: RawBallot, textes: set<string>, id: nat) {
    && a.uid in p.amendments.rows && p.amendments.rows[a.uid].id == id && a.texte in textes
    && (a.number == b.number || BallotLinks.BareNumber(a.number) == b.number)
  }

  lemma HitIsQuoted(p: Public, b: RawBallot, c: Scene)
    requires IsListing(c.listing) && HitFor(p, b, c).Some?
    ensures exists a :: a in c.seances && IsQuoted(p, a, b, TextesFor(p, b, c), HitFor(p, b, c).value.id)
  {
    var rows, textes := Joined(p.amendments, c.seances), c.listing(TextesFor(p, b, c));
    BallotLinks.FindIsOnTheReading(rows, b.number, b.day, textes);
    var r :| r in rows && r.texte in textes && r.hit == HitFor(p, b, c).value
             && (r.number == b.number || BallotLinks.BareNumber(r.number) == b.number);
    assert r.texte in multiset(textes);
    FilterMapMembers(PublicAmendment(p.amendments), c.seances, r);
    var a :| a in c.seances && PublicAmendment(p.amendments)(a) == Some(r);
    assert IsQuoted(p, a, b, TextesFor(p, b, c), HitFor(p, b, c).value.id);
  }

  lemma ListedOnce(listing: Listing, s: set<string>)
    requires IsListing(listing)
    ensures Distinct(listing(s)) && forall x :: x in listing(s) <==> x in s
  {
    forall x ensures x in listing(s) <==> x in s { assert x in multiset(listing(s)) <==> x in multiset(s); }
    OnceEachIsDistinct(listing(s));
  }

  /** The texts kept of a stage are those its amendments target. */
  lemma TextesOfIs(s: Stage, texte: string)
    ensures texte in TextesOf(s) <==> TargetOf(s, texte)
  {
  }

  /** A public séance amendment on one of the texts with exactly the number of the scrutin. */
  ghost predicate IsExactAmendment(p: Public, a: Seance, b: RawBallot, textes: set<string>) {
    a.uid in p.amendments.rows && a.texte in textes && a.number == b.number
  }

  lemma JoinedIs(st: AmendmentPages.State, seances: seq<Seance>, a: Seance)
    requires a in seances && a.uid in st.rows
    ensures BallotLinks.AmendmentRow(a.texte, a.number, a.day, BallotLinks.Hit(st.rows[a.uid].id, a.uid)) in Joined(st, seances)
  {
    var r := BallotLinks.AmendmentRow(a.texte, a.number, a.day, BallotLinks.Hit(st.rows[a.uid].id, a.uid));
    assert PublicAmendment(st)(a) == Some(r);
    FilterMapMembers(PublicAmendment(st), seances, r);
  }

  lemma JoinedComesFrom(st: AmendmentPages.State, seances: seq<Seance>, r: BallotLinks.AmendmentRow)
    requires r in Joined(st, seances)
    ensures exists a :: a in seances && a.uid in st.rows && r.texte == a.texte && r.number == a.number && r.day == a.day
                        && r.hit == BallotLinks.Hit(st.rows[a.uid].id, a.uid)
  {
    FilterMapMembers(PublicAmendment(st), seances, r);
    var a :| a in seances && PublicAmendment(st)(a) == Some(r);
  }

  lemma ExactRowIff(p: Public, b: RawBallot, c: Scene)
    requires IsListing(c.listing) && Truthy(b.number)
    ensures var rows, textes := Joined(p.amendments, c.seances), TextesFor(p, b, c);
            (exists a :: a in c.seances && IsExactAmendment(p, a, b, textes))
            <==> exists r :: r in rows && BallotLinks.IsExact(r, b.number.value, c.listing(textes))
  {
    var rows, textes := Joined(p.amendments, c.seances), TextesFor(p, b, c);
    ListedOnce(c.listing, textes);
    if a :| a in c.seances && IsExactAmendment(p, a, b, textes) {
      JoinedIs(p.amendments, c.seances, a);
      var r := BallotLinks.AmendmentRow(a.texte, a.number, a.day, BallotLinks.Hit(p.amendments.rows[a.uid].id, a.uid));
      assert BallotLinks.IsExact(r, b.number.value, c.listing(textes));
    }
    if r :| r in rows && BallotLinks.IsExact(r, b.number.value, c.listing(textes)) {
      JoinedComesFrom(p.amendments, c.seances, r);
      var a :| a in c.seances && a.uid in p.amendments.rows && r.texte == a.texte && r.number == a.number;
      assert IsExactAmendment(p, a, b, textes);
    }
  }

  /**
   When a scrutin has an amendment: it quotes a number, and on the texts of its stage either some public
   amendment has that number whole, and then it is one of those, or some text resolves it as a bare one.
   */
  lemma AmendmentIsFoundIff(p: Public, b: RawBallot, c: Scene, debateId: int)
    requires IsListing(c.listing)
    ensures var found, rows, textes := BallotRow(p, b, c, debateId).amendmentId, Joined(p.amendments, c.seances), TextesFor(p, b, c);
            var exact := exists a :: a in c.seances && IsExactAmendment(p, a, b, textes);
            && (!Truthy(b.number) ==> found.None?)
            && (Truthy(b.number) && exact ==>
                  found.Some? && exists a :: a in c.seances && IsExactAmendment(p, a, b, textes) && p.amendments.rows[a.uid].id == found.value)
            && (Truthy(b.number) && !exact ==>
                  (found.Some? <==> exists t :: t in textes && BallotLinks.BareIn(rows, b.number.value, b.day)(t).Some?))
  {
    var rows, textes := Joined(p.amendments, c.seances), TextesFor(p, b, c);
    var listed := c.listing(textes);
    if Truthy(b.number) {
      ListedOnce(c.listing, textes);
      ExactRowIff(p, b, c);
      if exists r :: r in rows && BallotLinks.IsExact(r, b.number.value, listed) {
        BallotLinks.ExactLevelFinds(rows, b.number.value, b.day, listed);
        var r :| r in rows && BallotLinks.IsExact(r, b.number.value, listed) && HitFor(p, b, c) == Some(r.hit);
        JoinedComesFrom(p.amendments, c.seances, r);
        var a :| a in c.seances && a.uid in p.amendments.rows && r.texte == a.texte && r.number == a.number
                 && r.hit == BallotLinks.Hit(p.amendments.rows[a.uid].id, a.uid);
        assert IsExactAmendment(p, a, b, textes);
      } else {
        BallotLinks.BareLevelFinds(rows, b.number.value, b.day, listed);
      }
    }
  }

  /** One stage gave both: the reading of the row, and the texts on which its amendment was looked for. */
  ghost predicate StageGives(p: Public, s: Stage, b: RawBallot, law: string, row: Ballot, seances: seq<Seance>) {
    && row.readingId.Some? && BallotAnswer(p, s, (law, b.agendaUid), row.readingId.value)
    && (row.amendmentId.Some? ==> exists a :: a in seances && IsQuoted(p, a, b, TextesOf(s), row.amendmentId.value))
  }

  ghost predicate IsQuotedMost(p: Public, b: RawBallot, titles: map<string, string>, d: string) {
    && BallotLinks.TitleScore(d, titles, b.title) >= 4
    && forall e :: e in b.refs && e in p.laws && e != d ==>
         BallotLinks.TitleScore(e, titles, b.title) < BallotLinks.TitleScore(d, titles, b.title)
  }

  /**
   The law of a scrutin: its own dossier if that is public; else the only public dossier on the
   agenda of its sitting; else the one of those of whose title at least four leading words are
   quoted, and more than of any other.
   */
  ghost predicate IsLawOf(p: Public, b: RawBallot, titles: map<string, string>, d: string) {
    || (b.dossier == Some(d) && d in p.laws)
    || ((b.dossier.None? || b.dossier.value !in p.laws) && d in b.refs && d in p.laws
        && ((forall e :: e in b.refs && e in p.laws ==> e == d) || IsQuotedMost(p, b, titles, d)))
  }

  lemma LawOfIff(p: Public, b: RawBallot, c: Scene, d: string)
    requires IsListing(c.listing)
    ensures LawOf(p, b, c) == Some(d) <==> IsLawOf(p, b, c.titles, d)
  {
    var candidates := c.listing(b.refs * p.laws.Keys);
    ListedOnce(c.listing, b.refs * p.laws.Keys);
    assert forall e :: e in candidates <==> e in b.refs && e in p.laws;
    BallotLinks.LawForIff(b.dossier, candidates, p.laws, c.titles, b.title, d);
    assert d in candidates ==> (BallotLinks.Wins(d, candidates, c.titles, b.title) <==> IsQuotedMost(p, b, c.titles, d));
  }

  /** The row of a scrutin of law `d`. */
  ghost predicate IsBallotOf(p: Public, b: RawBallot, c: Scene, d: string, row: Ballot) {
    && d in p.laws && row.lawId == Some(p.laws[d])
    && (row.readingId.Some? <==> exists s, rid :: s in c.stages && BallotAnswer(p, s, (d, b.agendaUid), rid))
    && (row.readingId.Some? ==> exists s :: s in c.stages && StageGives(p, s, b, d, row, c.seances))
  }

  lemma RowIsBallotOf(p: Public, b: RawBallot, c: Scene, d: string, debateId: int)
    requires IsListing(c.listing) && LawOf(p, b, c) == Some(d) && d in p.laws
    ensures IsBallotOf(p, b, c, d, BallotRow(p, b, c, debateId))
  {
    if HitFor(p, b, c).Some? {
      HitIsPublic(p, b, c);
      HitIsQuoted(p, b, c);
    }
    BallotIndexIs(p, c.stages, (d, b.agendaUid));
    if StageOf(p, b, c).Some? {
      var s :| s in c.stages && BallotAnswer(p, s, (d, b.agendaUid), StageOf(p, b, c).value.id)
               && StageOf(p, b, c).value.textes == TextesOf(s);
      assert StageGives(p, s, b, d, BallotRow(p, b, c, debateId), c.seances);
    }
  }

  /**
   A scrutin whose sitting is known has a law exactly when one is its law; its reading is that of
   a stage of this law which sat that day, known iff there is one; its amendment, if any, is a
   public one on a text of that same stage, with the number quoted.
   */
  lemma BallotHasItsReading(p: Public, bs: seq<RawBallot>, c: Scene, k: nat)
    requires IsListing(c.listing)
    requires DistinctBallots(bs) && k < |bs| && bs[k].agendaUid in p.debates
    ensures var rows, b := BallotsProjected(p, bs, c).ballots, bs[k];
            && b.uid in rows && rows[b.uid].debateId == p.debates[b.agendaUid]
            && (rows[b.uid].readingId.None? ==> rows[b.uid].amendmentId.None?)
            && ((forall d :: !IsLawOf(p, b, c.titles, d)) ==> rows[b.uid].lawId.None? && rows[b.uid].readingId.None?)
            && forall d :: IsLawOf(p, b, c.titles, d) ==> IsBallotOf(p, b, c, d, rows[b.uid])
  {
    var b := bs[k];
    EachBallotLands(p, bs, c, k);
    if HitFor(p, b, c).Some? { HitIsPublic(p, b, c); }
    if LawOf(p, b, c).Some? { LawOfIff(p, b, c, LawOf(p, b, c).value); }
    forall d | IsLawOf(p, b, c.titles, d) ensures IsBallotOf(p, b, c, d, BallotRow(p, b, c, p.debates[b.agendaUid])) {
      LawOfIff(p, b, c, d);
      RowIsBallotOf(p, b, c, d, p.debates[b.agendaUid]);
    }
  }
}

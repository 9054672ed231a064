/** Any projection run again over the same raw data, as its queries may list it, changes no table of `public`. */
module PublicRunsAgain {
  import opened Prelude
  import opened ReadingCodes
  import opened LastWins
  import opened ReadingLinks
  import opened ReadingProjections
  import opened ReadingIndexes
  import opened LawRunsAgain
  import AmendmentPages
  import LawTextProjection
  import BallotLinks
  import VersionOrder

  // ---------------------------------------------------------------- the second run, projection by projection

  /** `later` has the laws and readings of `p`, and the amendments a run over `p` left. */
  lemma AmendmentsAgain(p: Public, rows: seq<AmendmentPages.RawAmendment>, stages: seq<Stage>, deputies: map<string, int>,
                        groups: map<string, int>, later: Public, stages': seq<Stage>)
    requires later.laws == p.laws && later.readings == p.readings
    requires later.amendments.rows == AmendmentsProjected(p, rows, stages, deputies, groups).amendments.rows
    requires AmendmentReadings(p, stages') == AmendmentReadings(p, stages)
    ensures var again := AmendmentsProjected(later, rows, stages', deputies, groups);
            SameTables(later, again) && again.amendments.created == later.amendments.created
  {
    SameIndexes(p, later, stages');
    var l := AmendmentPages.Lookups(p.laws, deputies, groups, AmendmentReadings(p, stages));
    AmendmentPages.UpsertAgain(p.amendments, AmendmentPages.KeptRows(rows, l), later.amendments);
  }

  lemma TextsAgain(p: Public, raw: seq<LawTextProjection.RawText>, legislature: int, stages: seq<Stage>,
                   numbers: map<string, Option<int>>, later: Public, stages': seq<Stage>)
    requires later.laws == p.laws && later.readings == p.readings
    requires later.texts.rows == TextsProjected(p, raw, legislature, stages, numbers).texts.rows
    requires TextReadings(p, stages') == TextReadings(p, stages)
    ensures SameTables(later, TextsProjected(later, raw, legislature, stages', numbers))
  {
    SameIndexes(p, later, stages');
    LawTextProjection.RunAgain(p.texts, raw, legislature, TextLookups(p, stages, numbers), later.texts);
  }

  /** What a scrutin of a run writes: nothing when its sitting is unknown. */
  function Sends(p: Public, c: Scene): Says<RawBallot, string, Ballot> {
    (b: RawBallot, uid: string) =>
      if b.uid == uid && b.agendaUid in p.debates then Some(BallotRow(p, b, c, p.debates[b.agendaUid])) else None
  }

  lemma {:induction false} BallotsAre(p: Public, bs: seq<RawBallot>, c: Scene, uid: string)
    ensures var after, sent := BallotsProjected(p, bs, c), LastAnswer(Sends(p, c), bs, uid);
            && after == p.(ballots := after.ballots)
            && Get(after.ballots, uid) == if sent.Some? then sent else Get(p.ballots, uid)
  {
    if bs == [] {
    } else {
      BallotsAre(p, bs[..|bs| - 1], c, uid);
    }
  }

  /** Scrutins that leave the same rows. */
  ghost predicate SameBallots(p: Public, bs: seq<RawBallot>, c: Scene, bs': seq<RawBallot>, c': Scene) {
    forall uid :: LastAnswer(Sends(p, c), bs, uid) == LastAnswer(Sends(p, c'), bs', uid)
  }

  ghost predicate SameBallotTables(p: Public, later: Public) {
    && later.laws == p.laws && later.readings == p.readings && later.debates == p.debates
    && later.amendments.rows == p.amendments.rows
  }

  lemma BallotsAgain(p: Public, bs: seq<RawBallot>, c: Scene, later: Public, bs': seq<RawBallot>, c': Scene)
    requires SameBallotTables(p, later) && SameBallots(p, bs, c, bs', c')
    requires later.ballots == BallotsProjected(p, bs, c).ballots
    ensures SameTables(later, BallotsProjected(later, bs', c'))
  {
    var again := BallotsProjected(later, bs', c');
    forall uid ensures Get(again.ballots, uid) == Get(later.ballots, uid) {
      BallotsAre(p, bs, c, uid);
      BallotsAre(later, bs', c', uid);
      forall k | 0 <= k < |bs'| ensures Sends(p, c')(bs'[k], uid) == Sends(later, c')(bs'[k], uid) {
        SameScene(p, later, bs'[k], c');
      }
      SameRowByRow(Sends(p, c'), bs', uid, Sends(later, c'), bs', uid);
    }
    SameDictionary(again.ballots, later.ballots);
    BallotsAre(later, bs', c', "");
  }

  // ---------------------------------------------------------------- the second run, whichever it is

  /** A second run whose raw data answer every question of the projection as those of the first. */
  ghost predicate SameAnswers(p: Public, r: Run, r': Run) {
    match r
    case Laws(ds) => r'.Laws? && AllSayTheSame(ds, r'.dossiers)
    case Amendments(_, stages, _, _) =>
      && r'.Amendments? && r' == r.(amendmentStages := r'.amendmentStages)
      && AmendmentReadings(p, r'.amendmentStages) == AmendmentReadings(p, stages)
    case Texts(_, _, stages, _) =>
      r'.Texts? && r' == r.(textStages := r'.textStages) && TextReadings(p, r'.textStages) == TextReadings(p, stages)
    case Ballots(bs, c) => r'.Ballots? && SameBallots(p, bs, c, r'.ballots, r'.scene)
    case NewSitting(uid) => r'.NewSitting? && r'.uid == uid
  }

  /** In `later`, what the projection reads is as in `p`, and what it writes as the run over `p` left it. */
  ghost predicate Follows(p: Public, r: Run, later: Public) {
    match r
    case Laws(ds) => LeftBy(p, ds, later) && later.debates == p.debates
    case Amendments(_, _, _, _) =>
      later.laws == p.laws && later.readings == p.readings && later.amendments.rows == After(p, r).amendments.rows
    case Texts(_, _, _, _) => later.laws == p.laws && later.readings == p.readings && later.texts.rows == After(p, r).texts.rows
    case Ballots(_, _) => SameBallotTables(p, later) && later.ballots == After(p, r).ballots
    case NewSitting(uid) => uid in later.debates
  }

  /** Whatever else ran in between, the second run changes nothing. */
  lemma RunAgain(p: Public, r: Run, later: Public, r': Run)
    requires Inv(p) && Inv(later) && Follows(p, r, later) && SameAnswers(p, r, r')
    ensures SameTables(later, After(later, r'))
  {
    match r {
      case Laws(ds) => LawsAgain(p, ds, later, r'.dossiers);
      case Amendments(rows, stages, deputies, groups) =>
        AmendmentsAgain(p, rows, stages, deputies, groups, later, r'.amendmentStages);
      case Texts(raw, legislature, stages, numbers) => TextsAgain(p, raw, legislature, stages, numbers, later, r'.textStages);
      case Ballots(bs, c) => BallotsAgain(p, bs, c, later, r'.ballots, r'.scene);
      case NewSitting(_) =>
    }
  }

  lemma RunFollows(p: Public, r: Run)
    requires Inv(p)
    ensures Follows(p, r, After(p, r))
  {
    match r {
      case Laws(ds) => LawsLeaveTheRest(p, ds);
      case Amendments(_, _, _, _) =>
      case Texts(_, _, _, _) =>
      case Ballots(bs, c) => BallotsAre(p, bs, c, "");
      case NewSitting(_) =>
    }
  }

  /** Any run of any projection, done twice over the same listing of the raw data, leaves the tables as done once. */
  lemma RunTwiceIsOnce(p: Public, r: Run)
    requires Inv(p) && IsRun(r)
    ensures SameTables(After(p, r), After(After(p, r), r))
  {
    RunKeeps(p, r);
    RunFollows(p, r);
    RunAgain(p, r, After(p, r), r);
  }

  // ---------------------------------------------------------------- what the queries leave open

  /** The scrutins of a run by number, which several may share; uids are unique. */
  ghost predicate SameScrutins(bs: seq<RawBallot>, bs': seq<RawBallot>) { DistinctBallots(bs) && Permuted(bs, bs') }

  /**
   The same raw data as another run may read them: rows in any order where the query has none or
   leaves ties, sets in any order.
   */
  ghost predicate RelistedRun(r: Run, r': Run) {
    match r
    case Laws(ds) => r'.Laws? && |ds| == |r'.dossiers| && forall k :: 0 <= k < |ds| ==> Relisted(ds[k], r'.dossiers[k])
    case Amendments(_, stages, _, _) =>
      r'.Amendments? && r' == r.(amendmentStages := r'.amendmentStages) && Permuted(stages, r'.amendmentStages)
    case Texts(_, _, stages, _) => r'.Texts? && r' == r.(textStages := r'.textStages) && Permuted(stages, r'.textStages)
    case Ballots(bs, c) =>
      && r'.Ballots? && SameScrutins(bs, r'.ballots)
      && r'.scene.titles == c.titles && Permuted(c.stages, r'.scene.stages) && Permuted(c.seances, r'.scene.seances)
    case NewSitting(_) => r' == r
  }

  /** The amendment of a scrutin does not depend on the listing. */
  ghost predicate SettledBallot(p: Public, b: RawBallot, c: Scene) {
    Truthy(b.number) ==> BallotLinks.Settled(Joined(p.amendments, c.seances), b.number.value, b.day, c.listing(TextesFor(p, b, c)))
  }

  /** Nothing the projection stores depends on the listing. */
  ghost predicate SettledRun(p: Public, r: Run) {
    match r
    case Laws(ds) => forall k :: 0 <= k < |ds| ==> IsStageList(ds[k].stages) && TiesAgree(ds[k].stages)
    case Amendments(_, stages, _, _) => Agree(AmendmentSays(p), stages)
    case Texts(_, _, stages, _) => Agree(TextSays(p), stages)
    case Ballots(bs, c) =>
      && Agree(BallotSays(p), c.stages)
      && forall b :: b in bs ==> SettledBallot(p, b, c)
    case NewSitting(_) => true
  }

  lemma SameHit(p: Public, b: RawBallot, c: Scene, seances: seq<Seance>, listing: Listing)
    requires IsListing(c.listing) && IsListing(listing) && Permuted(c.seances, seances) && SettledBallot(p, b, c)
    ensures BallotLinks.Find(Joined(p.amendments, seances), b.number, b.day, listing(TextesFor(p, b, c))) == HitFor(p, b, c)
  {
    var textes := TextesFor(p, b, c);
    assert Permuted(c.listing(textes), listing(textes));
    FilterMapPermutes(PublicAmendment(p.amendments), c.seances, seances);
    if Truthy(b.number) {
      BallotLinks.SettledIsEnough(Joined(p.amendments, c.seances), b.number.value, b.day, c.listing(textes),
                                  Joined(p.amendments, seances), listing(textes));
    }
  }

  lemma SameLaw(p: Public, b: RawBallot, c: Scene, c': Scene)
    requires IsListing(c.listing) && IsListing(c'.listing) && c'.titles == c.titles
    ensures LawOf(p, b, c') == LawOf(p, b, c)
  {
    var refs := b.refs * p.laws.Keys;
    ListedOnce(c.listing, refs);
    assert Permuted(c.listing(refs), c'.listing(refs));
    BallotLinks.LawIgnoresOrder(b.dossier, c.listing(refs), c'.listing(refs), p.laws, c.titles, b.title);
  }

  lemma SameBallotRow(p: Public, b: RawBallot, c: Scene, c': Scene)
    requires IsListing(c.listing) && IsListing(c'.listing)
    requires BallotReadings(p, c'.stages) == BallotReadings(p, c.stages) && c'.titles == c.titles && Permuted(c.seances, c'.seances)
    requires SettledBallot(p, b, c)
    ensures forall debateId :: BallotRow(p, b, c, debateId) == BallotRow(p, b, c', debateId)
  {
    SameLaw(p, b, c, c');
    SameHit(p, b, c, c'.seances, c'.listing);
    assert TextesFor(p, b, c) == TextesFor(p, b, c');
    assert HitFor(p, b, c) == HitFor(p, b, c');
  }

  lemma OneScrutinSends(p: Public, c: Scene, bs: seq<RawBallot>, b: RawBallot)
    requires DistinctBallots(bs) && b in bs
    ensures LastAnswer(Sends(p, c), bs, b.uid) == Sends(p, c)(b, b.uid)
  {
    var i :| 0 <= i < |bs| && bs[i] == b;
    forall t | t in bs && t.uid == b.uid ensures t == b { var j :| 0 <= j < |bs| && bs[j] == t; }
    OnlyAnswer(Sends(p, c), bs, b.uid, b);
  }

  lemma DistinctWhenPermuted(bs: seq<RawBallot>, bs': seq<RawBallot>)
    requires DistinctBallots(bs) && Permuted(bs, bs')
    ensures DistinctBallots(bs')
  {
    PermutedMembers(bs, bs');
    forall i, j | 0 <= i < j < |bs| ensures bs[i] != bs[j] { assert bs[i].uid != bs[j].uid; }
    PermutedDistinct(bs, bs');
    forall i, j | 0 <= i < j < |bs'| ensures bs'[i].uid != bs'[j].uid {
      assert bs'[i] in bs' && bs'[j] in bs';
      var k :| 0 <= k < |bs| && bs[k] == bs'[i];
      var l :| 0 <= l < |bs| && bs[l] == bs'[j];
      assert k != l;
    }
  }

  lemma RelistedBallots(p: Public, r: Run, r': Run)
    requires r.Ballots? && IsRun(r) && IsRun(r') && RelistedRun(r, r') && SettledRun(p, r)
    ensures SameBallots(p, r.ballots, r.scene, r'.ballots, r'.scene)
  {
    PermutedMembers(r.ballots, r'.ballots);
    DistinctWhenPermuted(r.ballots, r'.ballots);
    BallotIndexAnyOrderIff(p, r.scene.stages);
    forall uid ensures LastAnswer(Sends(p, r.scene), r.ballots, uid) == LastAnswer(Sends(p, r'.scene), r'.ballots, uid) {
      if b :| b in r.ballots && b.uid == uid {
        SameBallotRow(p, b, r.scene, r'.scene);
        OneScrutinSends(p, r.scene, r.ballots, b);
        OneScrutinSends(p, r'.scene, r'.ballots, b);
      } else {
        SilentRows(Sends(p, r.scene), r.ballots, uid);
        SilentRows(Sends(p, r'.scene), r'.ballots, uid);
      }
    }
  }

  lemma RelistedGivesTheSame(p: Public, r: Run, r': Run)
    requires IsRun(r) && IsRun(r') && RelistedRun(r, r') && SettledRun(p, r)
    ensures SameAnswers(p, r, r')
  {
    match r {
      case Laws(ds) =>
        forall k | 0 <= k < |ds| ensures SaysTheSame(ds[k], r'.dossiers[k]) { RelistedSaysTheSame(ds[k], r'.dossiers[k]); }
      case Amendments(_, stages, _, _) => AmendmentIndexAnyOrderIff(p, stages);
      case Texts(_, _, stages, _) => TextIndexAnyOrderIff(p, stages);
      case Ballots(_, _) => RelistedBallots(p, r, r');
      case NewSitting(_) =>
    }
  }

  /**
   Any run of any projection, done again over the same raw data in whatever order its queries
   list them, leaves the tables as they were, when the rows that may come last answer alike.
   */
  lemma RelistedRunIsIdle(p: Public, r: Run, r': Run)
    requires Inv(p) && IsRun(r) && IsRun(r') && RelistedRun(r, r') && SettledRun(p, r)
    ensures SameTables(After(p, r), After(After(p, r), r'))
  {
    RunKeeps(p, r);
    RunFollows(p, r);
    RelistedGivesTheSame(p, r, r');
    RunAgain(p, r, After(p, r), r');
  }

  // ---------------------------------------------------------------- an unsettled run

  /** Two stages of one dossier that both have the text "X", as when the source renames a stage. */
  const FIRST_READING := Stage("D-AN1", "D", 1, "AN1", Some("X"), None, None, [], "")
  const JOINT := Stage("D-CMP", "D", 2, "CMP", Some("X"), None, None, [], "")

  const TWO_READINGS: Public := EMPTY.(
    laws := map["D" := 1], nextLaw := 2,
    readings := [Reading(1, 1, NationalAssembly, 1, ""), Reading(2, 1, Cmp, 1, "")], nextReading := 3)

  const TEXT_X := LawTextProjection.RawText(Some("D"), 17, true, VersionOrder.Version("X", None, None, ""))

  function RunOverStages(stages: seq<Stage>): Run { Texts([TEXT_X], 17, stages, map[]) }

  lemma ReadingsOfBoth(p: Public)
    requires p.readings == TWO_READINGS.readings
    ensures IdOf(p.readings, 1, (NationalAssembly, 1)) == Some(1) && IdOf(p.readings, 1, (Cmp, 1)) == Some(2)
  {
    var one := p.readings[..1];
    assert one == [Reading(1, 1, NationalAssembly, 1, "")] && one[..0] == [];
    assert IdOf(one, 1, (NationalAssembly, 1)) == Some(1);
  }

  lemma LastStageDecides(p: Public, first: Stage, last: Stage)
    requires p.laws == map["D" := 1] && last.dossier == "D" && last.texte == Some("X") && ReadingOf(last.code).Some?
    ensures Get(TextReadings(p, [first, last]), (Some("D"), "X")) == Some(IdOf(p.readings, 1, ReadingOf(last.code).value))
  {
    var stages := [first, last];
    assert stages[1] == last && p.laws["D"] == 1;
    assert LastVersionAt(p, stages, (Some("D"), "X"), 1);
    TextIndexIs(p, stages, (Some("D"), "X"));
  }

  lemma OneTextIsStored(st: LawTextProjection.State, t: LawTextProjection.RawText, legislature: int, l: LawTextProjection.Lookups)
    requires LawTextProjection.Wanted(t, legislature) && LawTextProjection.Known(l, t.dossier)
    ensures var rows := LawTextProjection.RunOver(st, [t], legislature, l).rows;
            t.version.uid in rows && rows[t.version.uid].readingId == LawTextProjection.ReadingFor(t, l)
  {
    var raw := [t];
    assert raw[..0] == [] && [] + raw == raw && t in raw;
    assert LawTextProjection.Selected(raw, legislature) == raw;
    LawTextProjection.EachTextIsNumbered(st, raw, t, l);
  }

  lemma TextIsStored(p: Public, stages: seq<Stage>, rid: int)
    requires p.laws == map["D" := 1] && Get(TextReadings(p, stages), (Some("D"), "X")) == Some(Some(rid))
    ensures var rows := After(p, RunOverStages(stages)).texts.rows; "X" in rows && rows["X"].readingId == Some(rid)
  {
    OneTextIsStored(p.texts, TEXT_X, 17, TextLookups(p, stages, map[]));
  }

  lemma TwoReadingsAreSound()
    ensures Inv(TWO_READINGS)
  {
    var rs := TWO_READINGS.readings;
    assert rs[0] == Reading(1, 1, NationalAssembly, 1, "") && rs[1] == Reading(2, 1, Cmp, 1, "");
  }

  lemma TextRunLeavesTheRest(p: Public, stages: seq<Stage>)
    ensures var after := After(p, RunOverStages(stages)); after.laws == p.laws && after.readings == p.readings
  {
  }

  lemma StoredUnderEither()
    ensures var once := After(TWO_READINGS, RunOverStages([FIRST_READING, JOINT]));
            var twice := After(once, RunOverStages([JOINT, FIRST_READING]));
            && "X" in once.texts.rows && once.texts.rows["X"].readingId == Some(2)
            && "X" in twice.texts.rows && twice.texts.rows["X"].readingId == Some(1)
  {
    var once := After(TWO_READINGS, RunOverStages([FIRST_READING, JOINT]));
    TextRunLeavesTheRest(TWO_READINGS, [FIRST_READING, JOINT]);
    ReadingsOfBoth(TWO_READINGS);
    ReadingsOfBoth(once);
    LastStageDecides(TWO_READINGS, FIRST_READING, JOINT);
    TextIsStored(TWO_READINGS, [FIRST_READING, JOINT], 2);
    LastStageDecides(once, JOINT, FIRST_READING);
    TextIsStored(once, [JOINT, FIRST_READING], 1);
  }

  /** On these the listing decides: the text is stored under one reading, then under the other. */
  lemma SharedTextMovesWithTheListing()
    ensures Inv(TWO_READINGS) && RelistedRun(RunOverStages([FIRST_READING, JOINT]), RunOverStages([JOINT, FIRST_READING]))
    ensures var once := After(TWO_READINGS, RunOverStages([FIRST_READING, JOINT]));
            !SameTables(once, After(once, RunOverStages([JOINT, FIRST_READING])))
  {
    TwoReadingsAreSound();
    Swapped(FIRST_READING, JOINT);
    StoredUnderEither();
  }
}

/**
 The projections of one sync, in its order: laws, agenda, comptes rendus, amendments, law texts,
 scrutins. Laws come before the sittings they are linked to.
 */
module SyncAgain {
  import opened Prelude
  import opened LastWins
  import opened Sorting
  import opened Slugs
  import opened ReadingLinks
  import opened ReadingProjections
  import opened LawRunsAgain
  import opened PublicRunsAgain
  import AmendmentPages
  import LawTextProjection
  import Debates = DebateProjection

  /** What the projections of a sync read. */
  datatype Sync = Sync(
    legislature: int, now: int, fold: Fold,
    dossiers: seq<Dossier>, items: seq<Debates.AgendaItem>, comptesRendus: seq<Debates.CompteRendu>,
    amendments: AmendmentPages.RawTable, amendmentStages: seq<Stage>, deputies: map<string, int>, groups: map<string, int>,
    texts: seq<LawTextProjection.RawText>, textStages: seq<Stage>, numbers: map<string, Option<int>>,
    ballots: seq<RawBallot>, scene: Scene)

  function LawRun(x: Sync): Run { Laws(x.dossiers) }

  function AmendmentRun(x: Sync): Run {
    Amendments(AmendmentPages.Selected(x.amendments, x.legislature), x.amendmentStages, x.deputies, x.groups)
  }

  function TextRun(x: Sync): Run { Texts(x.texts, x.legislature, x.textStages, x.numbers) }

  function BallotRun(x: Sync): Run { Ballots(x.ballots, x.scene) }

  function SittingWrites(x: Sync): seq<Debates.Write> { Debates.BothWrites(x.items, x.comptesRendus, x.legislature, x.now) }

  // ---------------------------------------------------------------- one sync

  /** public.debate with all its columns, and the rest of `public`, which reads its ids. */
  datatype Database = Database(debates: Debates.Table, public: Public)

  function DebateIds(t: Debates.Table): map<string, int> { map e | e in t.rows :: t.rows[e].id }

  function WithDebates(p: Public, t: Debates.Table): Public { p.(debates := DebateIds(t), nextDebate := t.nextId) }

  function DebatesAfter(s: Database, x: Sync): Debates.Table { Debates.AllUpserted(x.fold, s.debates, SittingWrites(x), x.now) }

  function AfterDebates(s: Database, x: Sync): Public { WithDebates(After(s.public, LawRun(x)), DebatesAfter(s, x)) }

  function AfterAmendments(s: Database, x: Sync): Public { After(AfterDebates(s, x), AmendmentRun(x)) }

  function AfterTexts(s: Database, x: Sync): Public { After(AfterAmendments(s, x), TextRun(x)) }

  function Synced(s: Database, x: Sync): Database { Database(DebatesAfter(s, x), After(AfterTexts(s, x), BallotRun(x))) }

  /** Every debate has its own id, below the sequence. */
  ghost predicate UniqueIds(t: Debates.Table) {
    && (forall a, b :: a in t.rows && b in t.rows && t.rows[a].id == t.rows[b].id ==> a == b)
    && (forall a :: a in t.rows ==> t.rows[a].id < t.nextId)
  }

  /** Every link is one of a debate that exists. */
  ghost predicate LinksKnown(p: Public) { forall k :: k in p.debateLaw ==> exists ref :: Get(p.debates, ref) == Some(k.0) }

  ghost predicate Sound(s: Database) {
    && UniqueIds(s.debates) && Inv(s.public) && LinksKnown(s.public)
    && s.public.debates == DebateIds(s.debates) && s.public.nextDebate == s.debates.nextId
  }

  class Projections {
    const schema: PublicSchema
    const sittings: Debates.PublicDebates

    constructor (schema: PublicSchema, sittings: Debates.PublicDebates)
      ensures this.schema == schema && this.sittings == sittings
    {
      this.schema, this.sittings := schema, sittings;
    }

    method ProjectSittings(x: Sync)
      modifies sittings
      ensures sittings.table == Debates.AllUpserted(x.fold, old(sittings.table), SittingWrites(x), x.now)
    {
      ghost var start := sittings.table;
      sittings.ProjectAgenda(x.fold, x.items, x.legislature, x.now);
      sittings.ProjectDebates(x.fold, x.items, x.comptesRendus, x.legislature, x.now);
      Debates.UpsertAppend(x.fold, start, Debates.AgendaWrites(x.items, x.legislature, x.now),
                           Debates.DebateWrites(x.items, x.comptesRendus, x.legislature), x.now);
    }

    method ProjectWhatHangsOff(x: Sync, page: nat)
      requires AmendmentPages.ValidRaw(x.amendments) && page > 0
      modifies schema
      ensures schema.db == After(After(After(old(schema.db), AmendmentRun(x)), TextRun(x)), BallotRun(x))
    {
      schema.ProjectAmendments(x.amendments, x.legislature, x.amendmentStages, x.deputies, x.groups, page);
      schema.ProjectTexts(x.texts, x.legislature, x.textStages, x.numbers);
      var _, _ := schema.ProjectBallots(x.ballots, x.scene);
    }

    method Execute(x: Sync, page: nat)
      requires Sound(Database(sittings.table, schema.db)) && AmendmentPages.ValidRaw(x.amendments) && page > 0
      modifies schema, sittings
      ensures Database(sittings.table, schema.db) == Synced(old(Database(sittings.table, schema.db)), x)
    {
      var _, _, _ := schema.ProjectLaws(x.dossiers);
      ProjectSittings(x);
      schema.db := WithDebates(schema.db, sittings.table);
      ProjectWhatHangsOff(x, page);
    }
  }

  // ---------------------------------------------------------------- what a sync keeps

  lemma {:induction false} IdsStayUnique(fold: Fold, t: Debates.Table, ws: seq<Debates.Write>, now: int)
    requires UniqueIds(t)
    ensures UniqueIds(Debates.AllUpserted(fold, t, ws, now))
  {
    if ws == [] {
    } else {
      IdsStayUnique(fold, t, ws[..|ws| - 1], now);
    }
  }

  ghost predicate Written(x: Sync, ref: string) { exists w :: w in SittingWrites(x) && w.ext == ref }

  /** The debates known after a sync: those before, with their ids, and those it writes. */
  lemma DebatesKnownAfter(s: Database, x: Sync, ref: string)
    ensures var ids, after := DebateIds(s.debates), DebateIds(DebatesAfter(s, x));
            && (ref in after <==> ref in ids || Written(x, ref))
            && (ref in ids ==> after[ref] == ids[ref])
  {
    Debates.RowsAfter(x.fold, s.debates, SittingWrites(x), x.now, ref);
  }

  lemma NewDebatesKeep(p: Public, t: Debates.Table)
    requires Inv(p) && UniqueIds(t)
    ensures Inv(WithDebates(p, t))
  {
    OwnedGrows(p, WithDebates(p, t));
  }

  lemma LawLinksKnown(p: Public, ds: seq<Dossier>)
    requires LinksKnown(p)
    ensures LinksKnown(LawsProjected(p, ds))
  {
    var after := LawsProjected(p, ds);
    LawsLeaveTheRest(p, ds);
    forall k | k in after.debateLaw ensures exists ref :: Get(after.debates, ref) == Some(k.0) {
      if ref :| ref in p.debates && p.debates[ref] == k.0 {
        assert Get(after.debates, ref) == Some(k.0);
      } else {
        UnknownDebatesStay(p, ds, k);
        var ref :| Get(p.debates, ref) == Some(k.0);
      }
    }
  }

  lemma LaterLinksKnown(s: Database, x: Sync)
    requires Sound(s)
    ensures LinksKnown(AfterDebates(s, x))
  {
    var p, after := After(s.public, LawRun(x)), AfterDebates(s, x);
    LawLinksKnown(s.public, x.dossiers);
    LawsLeaveTheRest(s.public, x.dossiers);
    forall k | k in after.debateLaw ensures exists ref :: Get(after.debates, ref) == Some(k.0) {
      var ref :| Get(p.debates, ref) == Some(k.0);
      DebatesKnownAfter(s, x, ref);
      assert Get(after.debates, ref) == Some(k.0);
    }
  }

  /** The first two steps leave a sound state on which the other projections run. */
  lemma FirstSteps(s: Database, x: Sync)
    requires Sound(s)
    ensures UniqueIds(DebatesAfter(s, x)) && Inv(AfterDebates(s, x)) && LinksKnown(AfterDebates(s, x))
  {
    RunKeeps(s.public, LawRun(x));
    IdsStayUnique(x.fold, s.debates, SittingWrites(x), x.now);
    NewDebatesKeep(After(s.public, LawRun(x)), DebatesAfter(s, x));
    LaterLinksKnown(s, x);
  }

  /** Each of the last three projections writes one table. */
  lemma LastStepsWrite(p: Public, r: Run)
    requires r.Amendments? || r.Texts? || r.Ballots?
    ensures var after := After(p, r);
            after == if r.Amendments? then p.(amendments := after.amendments)
                     else if r.Texts? then p.(texts := after.texts) else p.(ballots := after.ballots)
  {
    if r.Ballots? { BallotsAre(p, r.ballots, r.scene, ""); }
  }

  lemma SyncWrites(s: Database, x: Sync)
    ensures var p, after := AfterDebates(s, x), Synced(s, x).public;
            && AfterAmendments(s, x) == p.(amendments := after.amendments)
            && AfterTexts(s, x) == p.(amendments := after.amendments, texts := after.texts)
            && after == p.(amendments := after.amendments, texts := after.texts, ballots := after.ballots)
  {
    LastStepsWrite(AfterDebates(s, x), AmendmentRun(x));
    LastStepsWrite(AfterAmendments(s, x), TextRun(x));
    LastStepsWrite(AfterTexts(s, x), BallotRun(x));
  }

  lemma StepsKeep(s: Database, x: Sync)
    requires Sound(s) && IsListing(x.scene.listing)
    ensures Inv(AfterDebates(s, x)) && Inv(AfterAmendments(s, x)) && Inv(AfterTexts(s, x)) && Inv(Synced(s, x).public)
  {
    FirstSteps(s, x);
    RunKeeps(AfterDebates(s, x), AmendmentRun(x));
    RunKeeps(AfterAmendments(s, x), TextRun(x));
    RunKeeps(AfterTexts(s, x), BallotRun(x));
  }

  /** A whole sync keeps every cross-table invariant, debate ids included. */
  lemma SyncKeeps(s: Database, x: Sync)
    requires Sound(s) && IsListing(x.scene.listing)
    ensures Sound(Synced(s, x))
  {
    StepsKeep(s, x);
    FirstSteps(s, x);
    SyncWrites(s, x);
  }

  function AllSynced(s: Database, xs: seq<Sync>): Database {
    if xs == [] then s else Synced(AllSynced(s, xs[..|xs| - 1]), xs[|xs| - 1])
  }

  lemma SyncsFollowEachOther(s: Database, xs: seq<Sync>, x: Sync)
    ensures AllSynced(s, [x]) == Synced(s, x) && AllSynced(s, xs + [x]) == Synced(AllSynced(s, xs), x)
  {
    assert [x][..0] == [] && AllSynced(s, [x][..0]) == s;
    assert (xs + [x])[..|xs|] == xs;
  }

  const NOTHING := Database(Debates.Table(map[], 1), EMPTY)

  /** So every database that syncs built is sound. */
  lemma {:induction false} AnySyncsFromNothing(xs: seq<Sync>)
    requires forall x :: x in xs ==> IsListing(x.scene.listing)
    ensures Sound(AllSynced(NOTHING, xs))
  {
    if xs == [] {
    } else {
      assert xs[|xs| - 1] in xs && forall x :: x in xs[..|xs| - 1] ==> x in xs;
      AnySyncsFromNothing(xs[..|xs| - 1]);
      SyncKeeps(AllSynced(NOTHING, xs[..|xs| - 1]), xs[|xs| - 1]);
    }
  }

  // ---------------------------------------------------------------- the same sync again

  /** A second sync, at the same moment, whose raw data answer every question as the first's. */
  ghost predicate SameSync(s: Database, x: Sync, x': Sync) {
    && IsListing(x.scene.listing) && IsListing(x'.scene.listing)
    && x'.fold == x.fold && x'.now == x.now && Debates.SameLastWrites(SittingWrites(x), SittingWrites(x'))
    && AllSayTheSame(x.dossiers, x'.dossiers)
    && SameAnswers(AfterDebates(s, x), AmendmentRun(x), AmendmentRun(x'))
    && SameAnswers(AfterAmendments(s, x), TextRun(x), TextRun(x'))
    && SameAnswers(AfterTexts(s, x), BallotRun(x), BallotRun(x'))
  }

  lemma SyncIsItself(s: Database, x: Sync)
    requires IsListing(x.scene.listing)
    ensures SameSync(s, x, x)
  {
  }

  lemma SameWritten(s: Database, x: Sync, x': Sync, ref: string)
    requires SameSync(s, x, x')
    ensures Written(x, ref) <==> Written(x', ref)
  {
    Debates.RowsAfter(x.fold, s.debates, SittingWrites(x), x.now, ref);
    Debates.RowsAfter(x.fold, s.debates, SittingWrites(x'), x.now, ref);
  }

  lemma SameDebateIds(s: Database, x: Sync, x': Sync)
    requires SameSync(s, x, x')
    ensures DebateIds(DebatesAfter(Synced(s, x), x')) == DebateIds(DebatesAfter(s, x))
  {
    var once := Synced(s, x);
    forall ref ensures Get(DebateIds(DebatesAfter(once, x')), ref) == Get(DebateIds(once.debates), ref) {
      SameWritten(s, x, x', ref);
      DebatesKnownAfter(s, x, ref);
      DebatesKnownAfter(once, x', ref);
    }
    SameDictionary(DebateIds(DebatesAfter(once, x')), DebateIds(once.debates));
  }

  /** When the amendments come, the second sync has changed at most links. */
  lemma SecondFirstSteps(s: Database, x: Sync, x': Sync)
    requires Sound(s) && SameSync(s, x, x')
    ensures var once := Synced(s, x);
            && Sound(once) && LeftBy(s.public, x.dossiers, once.public)
            && SameTables(once.public.(debateLaw := AfterDebates(once, x').debateLaw), AfterDebates(once, x'))
  {
    var once := Synced(s, x);
    SyncKeeps(s, x);
    SyncWrites(s, x);
    ReadingsAgain(s.public, x.dossiers, once.public, x'.dossiers);
    LawsLeaveTheRest(once.public, x'.dossiers);
    SameDebateIds(s, x, x');
  }

  lemma SecondAmendments(s: Database, x: Sync, x': Sync)
    requires Sound(s) && SameSync(s, x, x')
    ensures SameTables(AfterDebates(Synced(s, x), x'), AfterAmendments(Synced(s, x), x'))
  {
    SecondFirstSteps(s, x, x');
    SyncWrites(s, x);
    StepsKeep(s, x);
    StepsKeep(Synced(s, x), x');
    RunAgain(AfterDebates(s, x), AmendmentRun(x), AfterDebates(Synced(s, x), x'), AmendmentRun(x'));
  }

  lemma SecondTexts(s: Database, x: Sync, x': Sync)
    requires Sound(s) && SameSync(s, x, x')
    ensures SameTables(AfterAmendments(Synced(s, x), x'), AfterTexts(Synced(s, x), x'))
  {
    SecondFirstSteps(s, x, x');
    SecondAmendments(s, x, x');
    SyncWrites(s, x);
    StepsKeep(s, x);
    StepsKeep(Synced(s, x), x');
    RunAgain(AfterAmendments(s, x), TextRun(x), AfterAmendments(Synced(s, x), x'), TextRun(x'));
  }

  lemma SecondBallots(s: Database, x: Sync, x': Sync)
    requires Sound(s) && SameSync(s, x, x')
    ensures SameTables(AfterTexts(Synced(s, x), x'), Synced(Synced(s, x), x').public)
  {
    SecondFirstSteps(s, x, x');
    SecondAmendments(s, x, x');
    SecondTexts(s, x, x');
    SyncWrites(s, x);
    StepsKeep(s, x);
    StepsKeep(Synced(s, x), x');
    RunAgain(AfterTexts(s, x), BallotRun(x), AfterTexts(Synced(s, x), x'), BallotRun(x'));
  }

  /** The second sync changes nothing but links, and those as its law run does. */
  lemma OnlyLinksMove(s: Database, x: Sync, x': Sync)
    requires Sound(s) && SameSync(s, x, x')
    ensures var once := Synced(s, x);
            var twice := Synced(once, x');
            && SameTables(once.public.(debateLaw := twice.public.debateLaw), twice.public)
            && twice.public.debateLaw == LawsProjected(once.public, x'.dossiers).debateLaw
            && Debates.SameDebates(once.debates, twice.debates)
  {
    SecondFirstSteps(s, x, x');
    SecondAmendments(s, x, x');
    SecondTexts(s, x, x');
    SecondBallots(s, x, x');
    SyncWrites(Synced(s, x), x');
    Debates.RunAgain(x.fold, s.debates, SittingWrites(x), SittingWrites(x'), x.now, x'.now);
  }

  /** A law of the run mentions the sitting. */
  ghost predicate IsMentioned(x: Sync, ref: string) { exists d :: d in x.dossiers && d.isLaw && Mentions(d, ref) }

  /** The sync itself adds the sitting to public.debate, after the laws were projected. */
  ghost predicate IsAdded(s: Database, x: Sync, ref: string) { Written(x, ref) && ref !in s.debates.rows }

  lemma MentionedIsMentioned(q: Public, x: Sync, ref: string)
    requires forall d :: d in x.dossiers && d.isLaw ==> d.uid in q.laws
    ensures IsMentioned(x, ref) <==> exists lawId :: RunMentions(q, x.dossiers, lawId, ref)
  {
    if d :| d in x.dossiers && d.isLaw && Mentions(d, ref) { assert RunMentions(q, x.dossiers, q.laws[d.uid], ref); }
    if lawId :| RunMentions(q, x.dossiers, lawId, ref) {
      var d :| d in x.dossiers && IsDossierOf(q.laws, d, lawId) && Mentions(d, ref);
    }
  }

  lemma AddedSittingIsUnlinked(s: Database, x: Sync, ref: string, lawId: int)
    requires Sound(s) && IsAdded(s, x, ref)
    ensures var once := Synced(s, x).public; ref in once.debates && (once.debates[ref], lawId) !in once.debateLaw
  {
    var once := Synced(s, x).public;
    SyncWrites(s, x);
    DebatesKnownAfter(s, x, ref);
    FirstSteps(s, x);
    forall other | other in s.public.debates ensures s.public.debates[other] != once.debates[ref] { DebatesKnownAfter(s, x, other); }
    UnknownDebatesStay(s.public, x.dossiers, (once.debates[ref], lawId));
  }

  /** A sitting that the first sync added is linked by the second to exactly the laws that mention it. */
  lemma AddedSittingIsLinked(s: Database, x: Sync, x': Sync, ref: string, lawId: int)
    requires Sound(s) && SameSync(s, x, x') && IsAdded(s, x, ref)
    ensures var once := Synced(s, x).public;
            && ref in once.debates && (once.debates[ref], lawId) !in once.debateLaw
            && ((once.debates[ref], lawId) in LawsProjected(once, x'.dossiers).debateLaw <==> RunMentions(once, x.dossiers, lawId, ref))
  {
    var once := Synced(s, x).public;
    SecondFirstSteps(s, x, x');
    AddedSittingIsUnlinked(s, x, ref, lawId);
    ReadingsAgain(s.public, x.dossiers, once, x'.dossiers);
    SameMentions(once, x.dossiers, x'.dossiers, lawId, ref);
    RunLinksAre(once, x'.dossiers, once, (once.debates[ref], lawId), ref);
  }

  lemma OtherLinksStand(s: Database, x: Sync, x': Sync, key: (int, int))
    requires Sound(s) && SameSync(s, x, x')
    requires forall ref :: IsAdded(s, x, ref) ==> Get(Synced(s, x).public.debates, ref) != Some(key.0)
    ensures var once := Synced(s, x).public; Get(LawsProjected(once, x'.dossiers).debateLaw, key) == Get(once.debateLaw, key)
  {
    var once := Synced(s, x).public;
    SecondFirstSteps(s, x, x');
    if ref :| ref in once.debates && once.debates[ref] == key.0 {
      DebatesKnownAfter(s, x, ref);
      assert !IsAdded(s, x, ref);
      LinkAgain(s.public, x.dossiers, once, x'.dossiers, key, ref);
    } else {
      UnknownLinkAgain(once, x'.dossiers, key);
    }
  }

  /**
   A sync done twice over the same raw data leaves every table as done once, exactly when no law
   of it mentions a sitting that the sync itself added: laws are projected before the agenda, so
   such a sitting gets its link only the second time.
   */
  lemma SyncTwiceIff(s: Database, x: Sync, x': Sync)
    requires Sound(s) && SameSync(s, x, x')
    ensures var once := Synced(s, x);
            SameTables(once.public, Synced(once, x').public) <==> forall ref :: IsMentioned(x, ref) ==> !IsAdded(s, x, ref)
  {
    var once := Synced(s, x).public;
    var links := LawsProjected(once, x'.dossiers).debateLaw;
    OnlyLinksMove(s, x, x');
    SyncWrites(s, x);
    LawsLeaveTheRest(s.public, x.dossiers);
    if ref :| IsMentioned(x, ref) && IsAdded(s, x, ref) {
      MentionedIsMentioned(once, x, ref);
      var lawId :| RunMentions(once, x.dossiers, lawId, ref);
      AddedSittingIsLinked(s, x, x', ref, lawId);
    } else {
      forall key ensures Get(links, key) == Get(once.debateLaw, key) {
        if ref :| IsAdded(s, x, ref) && Get(once.debates, ref) == Some(key.0) {
          MentionedIsMentioned(once, x, ref);
          AddedSittingIsLinked(s, x, x', ref, key.1);
        } else {
          OtherLinksStand(s, x, x', key);
        }
      }
      SameDictionary(links, once.debateLaw);
    }
  }

  lemma ItemIsWritten(x: Sync, item: Debates.AgendaItem)
    requires item in x.items && item.legislature == x.legislature
    ensures Written(x, item.uid)
  {
    var kept := Debates.Filter((i: Debates.AgendaItem) => i.legislature == x.legislature, x.items);
    var rows, writes := Debates.AgendaRows(x.items, x.legislature), Debates.AgendaWrites(x.items, x.legislature, x.now);
    SortMembers(kept, Debates.ByConfirmedThenStart(), item);
    var k :| 0 <= k < |rows| && rows[k] == item;
    assert writes[k] in writes && writes[k].ext == item.uid;
    assert writes[k] in SittingWrites(x);
  }

  /** So a law on the agenda of a new sitting is linked to it by the second sync, not by the first. */
  lemma NewSittingIsLinkedLate(s: Database, x: Sync, d: Dossier, item: Debates.AgendaItem)
    requires Sound(s) && IsListing(x.scene.listing)
    requires d in x.dossiers && d.isLaw && item.uid in d.agendaUids
    requires item in x.items && item.legislature == x.legislature && item.uid !in s.debates.rows
    ensures var once := Synced(s, x).public;
            item.uid in once.debates && d.uid in once.laws
            && var key := (once.debates[item.uid], once.laws[d.uid]);
            key !in once.debateLaw && key in Synced(Synced(s, x), x).public.debateLaw
  {
    var once := Synced(s, x).public;
    SyncIsItself(s, x);
    ItemIsWritten(x, item);
    SyncWrites(s, x);
    LawsLeaveTheRest(s.public, x.dossiers);
    OnlyLinksMove(s, x, x);
    assert RunMentions(once, x.dossiers, once.laws[d.uid], item.uid);
    AddedSittingIsLinked(s, x, x, item.uid, once.laws[d.uid]);
  }

  /** A third sync always finds everything as the second left it. */
  lemma ThirdSyncIsIdle(s: Database, x: Sync, x': Sync, x'': Sync)
    requires Sound(s) && SameSync(s, x, x') && SameSync(Synced(s, x), x', x'')
    ensures var twice := Synced(Synced(s, x), x'); SameTables(twice.public, Synced(twice, x'').public)
  {
    var once := Synced(s, x);
    SyncKeeps(s, x);
    forall ref ensures !IsAdded(once, x', ref) {
      SameWritten(s, x, x', ref);
      DebatesKnownAfter(s, x, ref);
    }
    SyncTwiceIff(once, x', x'');
  }

  // ---------------------------------------------------------------- other listings

  /** The same raw data as another sync may read them. */
  ghost predicate RelistedSync(x: Sync, x': Sync) {
    && IsListing(x.scene.listing) && IsListing(x'.scene.listing)
    && Permuted(x.items, x'.items) && Permuted(x.comptesRendus, x'.comptesRendus)
    && x' == x.(dossiers := x'.dossiers, items := x'.items, comptesRendus := x'.comptesRendus,
                amendmentStages := x'.amendmentStages, textStages := x'.textStages, ballots := x'.ballots, scene := x'.scene)
    && RelistedRun(LawRun(x), LawRun(x')) && RelistedRun(AmendmentRun(x), AmendmentRun(x'))
    && RelistedRun(TextRun(x), TextRun(x')) && RelistedRun(BallotRun(x), BallotRun(x'))
  }

  ghost predicate SettledSync(s: Database, x: Sync) {
    && Debates.SettledSittings(x.items, x.comptesRendus)
    && SettledRun(s.public, LawRun(x)) && SettledRun(AfterDebates(s, x), AmendmentRun(x))
    && SettledRun(AfterAmendments(s, x), TextRun(x)) && SettledRun(AfterTexts(s, x), BallotRun(x))
  }

  /** When what may come last answers alike, another listing makes the same sync. */
  lemma RelistedSyncIsTheSame(s: Database, x: Sync, x': Sync)
    requires RelistedSync(x, x') && SettledSync(s, x)
    ensures SameSync(s, x, x')
  {
    Debates.RelistedSittingsSayTheSame(x.items, x.comptesRendus, x'.items, x'.comptesRendus, x.legislature, x.now);
    RelistedGivesTheSame(s.public, LawRun(x), LawRun(x'));
    RelistedGivesTheSame(AfterDebates(s, x), AmendmentRun(x), AmendmentRun(x'));
    RelistedGivesTheSame(AfterAmendments(s, x), TextRun(x), TextRun(x'));
    RelistedGivesTheSame(AfterTexts(s, x), BallotRun(x), BallotRun(x'));
  }
}

/** Incremental collection of law texts: a text is fetched, or found missing, at most once. */
module CollectLawTexts {
  import opened Prelude
  import opened Sorting
  import opened RawStore
  import opened RawRepositories
  import opened RawLinkedSaves
  import opened SyncReports

  predicate IsDigit(c: char) { '0' <= c <= '9' }

  function WithoutNumber(uid: string): string {
    if uid != [] && IsDigit(uid[|uid| - 1]) then WithoutNumber(uid[..|uid| - 1]) else uid
  }

  /** The letters before the number: B, BTC or BTA; provisional texts (TAP) are not served. */
  function KindOf(uid: string): Option<TextKind> {
    var head := WithoutNumber(uid);
    if |head| == |uid| then None
    else if EndsWith(head, "BTC") then Some(Commission)
    else if EndsWith(head, "BTA") then Some(Adopted)
    else if EndsWith(head, "B") then Some(Deposited)
    else None
  }

  predicate AllDigits(s: string) { s != "" && forall i :: 0 <= i < |s| ==> IsDigit(s[i]) }

  /** int(s) */
  function NumberOf(s: string): nat
    requires forall i :: 0 <= i < |s| ==> IsDigit(s[i])
  {
    if s == "" then 0 else assert IsDigit(s[|s| - 1]); 10 * NumberOf(s[..|s| - 1]) + (s[|s| - 1] as int - '0' as int)
  }

  /** The two characters after "…R5L": int(uid[9:11]), 0 when they are not digits. */
  function UidLegislature(uid: string): nat {
    var mark := uid[Min(9, |uid|)..Min(11, |uid|)];
    if AllDigits(mark) then NumberOf(mark) else 0
  }

  // ---------------------------------------------------------------- what is still to fetch

  function TexteAddress(uid: string): Address { Address(LawTexte, [uid]) }

  predicate IsCandidate(uid: string, texte: Row, dossier: Option<string>) {
    && Get(texte.cols, "kind") in {Text("PRJL"), Text("PION")}
    && FromAssemblee(uid)
    && KindOf(uid).Some?
    && (dossier.Some? ==> Get(texte.cols, "dossier_uid") == Text(dossier.value))
  }

  predicate IsPending(s: Store, dossier: Option<string>, uid: string) {
    && TexteAddress(uid) in s.rows
    && IsCandidate(uid, s.rows[TexteAddress(uid)], dossier)
    && TextAddress(uid) !in s.rows
  }

  function PendingSet(s: Store, dossier: Option<string>): set<string> {
    set a | a in s.rows && a.table == LawTexte && |a.key| == 1 && IsPending(s, dossier, a.key[0]) :: a.key[0]
  }

  lemma PendingSetIs(s: Store, dossier: Option<string>, uid: string)
    ensures uid in PendingSet(s, dossier) <==> IsPending(s, dossier, uid)
  {
    if IsPending(s, dossier, uid) {
      var a := TexteAddress(uid);
      assert a in s.rows && a.table == LawTexte && |a.key| == 1 && a.key[0] == uid;
    }
  }

  function DepositedAt(s: Store, uid: string): Option<int> {
    if TexteAddress(uid) in s.rows && Get(s.rows[TexteAddress(uid)].cols, "deposited_at").Day?
    then Some(Get(s.rows[TexteAddress(uid)].cols, "deposited_at").day) else None
  }

  /** ORDER BY deposited_at DESC NULLS LAST, uid */
  predicate FetchedFirst(d1: Option<int>, u1: string, d2: Option<int>, u2: string) {
    if d1.Some? && d2.Some? then d1.value > d2.value || (d1.value == d2.value && TextLe(u1, u2))
    else if d1.Some? then true
    else d2.None? && TextLe(u1, u2)
  }

  function FetchOrder(s: Store): (string, string) -> bool {
    (u1, u2) => FetchedFirst(DepositedAt(s, u1), u1, DepositedAt(s, u2), u2)
  }

  lemma FetchOrderIsTotal(s: Store)
    ensures Total(FetchOrder(s)) && Transitive(FetchOrder(s)) && AntiSymmetric(FetchOrder(s))
  {
    var le := FetchOrder(s);
    forall x, y ensures le(x, y) || le(y, x) { TextLeTotal(x, y); }
    forall x, y, z | le(x, y) && le(y, z) ensures le(x, z) {
      if TextLe(x, y) && TextLe(y, z) { TextLeTransitive(x, y, z); }
    }
    forall x, y | le(x, y) && le(y, x) ensures x == y { TextLeAntiSymmetric(x, y); }
  }

  /** The rows of the query, in its order. */
  ghost predicate IsPendingList(s: Store, dossier: Option<string>, uids: seq<string>) {
    && multiset(uids) == multiset(PendingSet(s, dossier))
    && Sorted(uids, FetchOrder(s))
  }

  /** The deposit day that raw.law_texte gives for a uid. */
  ghost predicate DepositedOn(s: Store, uid: string, day: int) {
    TexteAddress(uid) in s.rows && Get(s.rows[TexteAddress(uid)].cols, "deposited_at") == Day(day)
  }

  ghost predicate Undated(s: Store, uid: string) { forall day :: !DepositedOn(s, uid, day) }

  /** The later deposit first, those of one day by uid, undated ones last and by uid too. */
  ghost predicate ComesBefore(s: Store, u: string, v: string) {
    && (forall day :: DepositedOn(s, v, day) ==>
          exists later :: DepositedOn(s, u, later) && later >= day && (later == day ==> TextLe(u, v)))
    && (Undated(s, u) && Undated(s, v) ==> TextLe(u, v))
  }

  ghost predicate MostRecentFirst(s: Store, uids: seq<string>) {
    forall i, j :: 0 <= i < j < |uids| ==> ComesBefore(s, uids[i], uids[j])
  }

  lemma DepositedAtIs(s: Store, u: string)
    ensures DepositedAt(s, u).Some? ==> DepositedOn(s, u, DepositedAt(s, u).value)
    ensures forall day :: DepositedOn(s, u, day) ==> DepositedAt(s, u) == Some(day)
  {
  }

  lemma FetchedFirstComesBefore(s: Store, u: string, v: string)
    requires FetchOrder(s)(u, v)
    ensures ComesBefore(s, u, v)
  {
    DepositedAtIs(s, u);
    DepositedAtIs(s, v);
  }

  lemma PendingListIsMostRecentFirst(s: Store, dossier: Option<string>, uids: seq<string>)
    requires IsPendingList(s, dossier, uids)
    ensures MostRecentFirst(s, uids)
  {
    forall i, j | 0 <= i < j < |uids| ensures ComesBefore(s, uids[i], uids[j]) { FetchedFirstComesBefore(s, uids[i], uids[j]); }
  }

  /** What is pending: a document of a projet or proposition deposited at the Assemblée, with a kind, of the dossier asked for, and no text yet. */
  lemma PendingIs(s: Store, dossier: Option<string>, uid: string)
    ensures uid in PendingSet(s, dossier) <==>
              && Address(LawTexte, [uid]) in s.rows && Address(LawText, [uid]) !in s.rows
              && var document := s.rows[Address(LawTexte, [uid])].cols;
              && (Get(document, "kind") == Text("PRJL") || Get(document, "kind") == Text("PION"))
              && |uid| >= 6 && uid[4] == 'A' && uid[5] == 'N' && KindOf(uid) != None
              && (dossier.Some? ==> Get(document, "dossier_uid") == Text(dossier.value))
  {
    PendingSetIs(s, dossier, uid);
    assert |uid| >= 6 ==> (uid[4..6] == "AN" <==> uid[4] == 'A' && uid[5] == 'N');
  }

  method PendingTexteUids(s: Store, dossier: Option<string>) returns (uids: seq<string>)
    ensures IsPendingList(s, dossier, uids) && MostRecentFirst(s, uids)
  {
    var rest := PendingSet(s, dossier);
    uids := [];
    while rest != {}
      invariant multiset(uids) + multiset(rest) == multiset(PendingSet(s, dossier))
      decreases rest
    {
      var u :| u in rest;
      assert multiset(rest) == multiset{u} + multiset(rest - {u});
      uids := uids + [u];
      rest := rest - {u};
    }
    FetchOrderIsTotal(s);
    SortKeeps(uids, FetchOrder(s));
    SortSorts(uids, FetchOrder(s));
    uids := Sort(uids, FetchOrder(s));
    PendingListIsMostRecentFirst(s, dossier, uids);
  }

  // ---------------------------------------------------------------- one text

  /** What the website and the database do with one uid during a run. */
  datatype Fetch =
    | Raises
    | NotServed
    | Served(cols: Cols, articles: seq<Entity>, saveRaises: bool)

  type Weather = string -> Fetch

  /** A 404 is remembered, unless the uid has no kind: reading that kind then raises. */
  predicate Succeeds(uid: string, weather: Weather) {
    match weather(uid)
    case Raises => false
    case NotServed => KindOf(uid).Some?
    case Served(_, articles, saveRaises) =>
      !saveRaises && (articles == [] || Acceptable(Rows(LawArticle, articles)))
  }

  function KindText(kind: TextKind): Value {
    match kind case Deposited => Text("deposited") case Commission => Text("commission") case Adopted => Text("adopted")
  }

  /** INSERT of a row that says "not available"; on conflict only that column is updated. */
  function Marked(s: Store, uid: string, tracking: Cols, now: int): Store
    requires KindOf(uid).Some?
  {
    var missing := map["available" := Flag(false)];
    var a := TextAddress(uid);
    if a in s.rows then s.(rows := s.rows[a := s.rows[a].(cols := s.rows[a].cols + missing)])
    else
      var row := map["kind" := KindText(KindOf(uid).value), "legislature" := Number(UidLegislature(uid))];
      Apply(s, Write(a, row + missing + tracking), now)
  }

  /** Marking a text says it is unavailable and nothing else: an existing row keeps all it had, times included. */
  lemma MarkTouchesAvailabilityOnly(s: Store, uid: string, tracking: Cols, now: int)
    requires KindOf(uid).Some? && IsBookkeeping(tracking)
    ensures var s', a := Marked(s, uid, tracking, now), TextAddress(uid);
            && a in s'.rows && Get(s'.rows[a].cols, "available") == Flag(false)
            && (forall b :: b != a ==> (b in s'.rows <==> b in s.rows) && (b in s.rows ==> s'.rows[b] == s.rows[b]))
            && (a !in s.rows ==>
                  && Get(s'.rows[a].cols, "kind") ==
                     Text(match KindOf(uid).value case Deposited => "deposited" case Commission => "commission" case Adopted => "adopted")
                  && (forall c :: c in tracking ==> Get(s'.rows[a].cols, c) == tracking[c])
                  && Get(s'.rows[a].cols, "legislature") == Number(UidLegislature(uid)) && s'.rows[a].updatedAt == now)
            && (a in s.rows ==>
                  && s'.rows[a] == s.rows[a].(cols := s'.rows[a].cols)
                  && forall c :: c != "available" ==> Get(s'.rows[a].cols, c) == Get(s.rows[a].cols, c))
  {
    assert "available" !in TRACKING && "kind" !in TRACKING && "legislature" !in TRACKING;
  }

  /** PRJLANR5L17B2681 is of the 17th legislature; a uid cut short, or without digits there, is of none. */
  lemma LegislatureIsInTheUid(uid: string)
    ensures UidLegislature(uid) ==
            if |uid| >= 11 && IsDigit(uid[9]) && IsDigit(uid[10]) then 10 * (uid[9] as int - '0' as int) + (uid[10] as int - '0' as int)
            else if |uid| == 10 && IsDigit(uid[9]) then uid[9] as int - '0' as int
            else 0
  {
    if |uid| >= 10 && IsDigit(uid[9]) {
      var one := [uid[9]];
      assert one[..0] == "" && NumberOf(one) == uid[9] as int - '0' as int;
      if |uid| == 10 {
        assert uid[9..10] == one;
      } else {
        var mark := uid[9..11];
        assert mark[..1] == one && mark[1] == uid[10];
      }
    }
  }

  function Stepped(s: Store, uid: string, weather: Weather, tracking: Cols, now: int): Store {
    if !Succeeds(uid, weather) then s
    else if weather(uid).NotServed? then Marked(s, uid, tracking, now)
    else TextSaved(s, uid, Entity([uid], weather(uid).cols), weather(uid).articles, tracking, now)
  }

  function OutcomeOf(s: Store, uid: string, weather: Weather): Outcome {
    if !Succeeds(uid, weather) then Failed(uid)
    else if weather(uid).NotServed? then Skipped
    else if TextAddress(uid) in s.rows then Updated else Created
  }

  function RunStore(s: Store, uids: seq<string>, weather: Weather, tracking: Cols, now: int): Store {
    if uids == [] then s
    else Stepped(RunStore(s, uids[..|uids| - 1], weather, tracking, now), uids[|uids| - 1], weather, tracking, now)
  }

  function RunOutcomes(s: Store, uids: seq<string>, weather: Weather, tracking: Cols, now: int): seq<Outcome> {
    if uids == [] then []
    else
      var init, last := uids[..|uids| - 1], uids[|uids| - 1];
      RunOutcomes(s, init, weather, tracking, now)
      + [OutcomeOf(RunStore(s, init, weather, tracking, now), last, weather)]
  }

  // ---------------------------------------------------------------- the use case

  /** `uids[:limit] if limit else uids`: a limit of 0 is no limit. */
  function Cut(uids: seq<string>, limit: Option<int>): seq<string> {
    if limit.Some? && limit.value != 0 then Slice(uids, limit.value) else uids
  }

  lemma OutcomesSnoc(s: Store, init: seq<string>, last: string, weather: Weather, tracking: Cols, now: int)
    ensures RunReport(RunOutcomes(s, init + [last], weather, tracking, now))
         == Count(RunReport(RunOutcomes(s, init, weather, tracking, now)),
                  OutcomeOf(RunStore(s, init, weather, tracking, now), last, weather))
  {
    var all := RunOutcomes(s, init + [last], weather, tracking, now);
    assert (init + [last])[..|init|] == init;
    assert all[..|all| - 1] == RunOutcomes(s, init, weather, tracking, now);
  }

  /** No limit or 0: all; n: the first n; -n: all but the last n. */
  lemma CutIs(uids: seq<string>, limit: Option<int>)
    ensures limit.None? || limit == Some(0) ==> Cut(uids, limit) == uids
    ensures limit.Some? && limit.value > 0 ==>
              Cut(uids, limit) <= uids && |Cut(uids, limit)| == if limit.value <= |uids| then limit.value else |uids|
    ensures limit.Some? && limit.value < 0 ==>
              Cut(uids, limit) <= uids && |Cut(uids, limit)| == if |uids| + limit.value >= 0 then |uids| + limit.value else 0
  {
  }

  /** What each outcome of one uid says of the store before and after it. */
  lemma OutcomeIs(s: Store, uid: string, weather: Weather, tracking: Cols, now: int)
    requires IsBookkeeping(tracking)
    ensures var o, s', a := OutcomeOf(s, uid, weather), Stepped(s, uid, weather, tracking, now), TextAddress(uid);
            && (o == Failed(uid) <==> !Succeeds(uid, weather)) && (o == Failed(uid) ==> s' == s)
            && (o == Skipped <==> Succeeds(uid, weather) && weather(uid).NotServed?)
            && (o == Skipped ==> a in s'.rows && Get(s'.rows[a].cols, "available") == Flag(false))
            && (o == SyncReports.Created <==> Succeeds(uid, weather) && weather(uid).Served? && a !in s.rows)
            && (o == SyncReports.Updated <==> Succeeds(uid, weather) && weather(uid).Served? && a in s.rows)
            && (o == SyncReports.Created || o == SyncReports.Updated ==>
                  LawTextStored(s, s', uid, Entity([uid], weather(uid).cols), weather(uid).articles, tracking))
  {
    if Succeeds(uid, weather) {
      if weather(uid).NotServed? {
        MarkTouchesAvailabilityOnly(s, uid, tracking, now);
      } else {
        LawTextIsStored(s, uid, Entity([uid], weather(uid).cols), weather(uid).articles, tracking, now);
      }
    }
  }

  class Collector {
    const repository: RawRepository
    const report: SyncReport

    constructor (repository: RawRepository)
      ensures this.repository == repository && fresh(report) && report.Value() == EMPTY
    {
      this.repository := repository;
      report := new SyncReport();
    }

    method MarkUnavailable(uid: string, tracking: Cols, now: int) returns (ok: bool)
      modifies repository
      ensures ok <==> KindOf(uid).Some?
      ensures repository.db == if ok then Marked(old(repository.db), uid, tracking, now) else old(repository.db)
    {
      ok := KindOf(uid).Some?;
      if ok {
        repository.db := Marked(repository.db, uid, tracking, now);
      }
    }

    method CollectMissing(uid: string, tracking: Cols, now: int)
      modifies repository, report
      ensures repository.db == if KindOf(uid).Some? then Marked(old(repository.db), uid, tracking, now) else old(repository.db)
      ensures report.Value() == if KindOf(uid).Some? then old(report.Value()).(skipped := old(report.skipped) + 1)
                                else FailOne(old(report.Value()), uid)
    {
      var ok := MarkUnavailable(uid, tracking, now);
      if ok {
        report.skipped := report.skipped + 1;
      } else {
        report.RecordFailure(uid);
      }
    }

    method CollectServed(uid: string, text: Entity, articles: seq<Entity>, tracking: Cols, now: int)
      requires text.key == [uid]
      modifies repository, report
      ensures var ok := articles == [] || Acceptable(Rows(LawArticle, articles));
              && repository.db == (if ok then TextSaved(old(repository.db), uid, text, articles, tracking, now) else old(repository.db))
              && report.Value() == if !ok then FailOne(old(report.Value()), uid)
                                   else if TextAddress(uid) in old(repository.db).rows then old(report.Value()).(updated := old(report.updated) + 1)
                                   else old(report.Value()).(created := old(report.created) + 1)
    {
      var outcome := SaveLawText(repository, uid, text, articles, tracking, now);
      if outcome.Err? {
        report.RecordFailure(uid);
      } else if outcome.value {
        report.created := report.created + 1;
      } else {
        report.updated := report.updated + 1;
      }
    }

    /** One uid: an exception anywhere becomes a recorded failure. */
    method CollectOne(uid: string, weather: Weather, tracking: Cols, now: int)
      modifies repository, report
      ensures repository.db == Stepped(old(repository.db), uid, weather, tracking, now)
      ensures report.Value() == Count(old(report.Value()), OutcomeOf(old(repository.db), uid, weather))
    {
      report.processed := report.processed + 1;
      var fetch := weather(uid);
      if fetch.NotServed? {
        CollectMissing(uid, tracking, now);
      } else if fetch.Served? && !fetch.saveRaises {
        CollectServed(uid, Entity([uid], fetch.cols), fetch.articles, tracking, now);
      } else {
        report.RecordFailure(uid);
      }
    }

    method Execute(dossier: Option<string>, texteUid: Option<string>, limit: Option<int>, dryRun: bool,
                   weather: Weather, tracking: Cols, now: int)
      returns (uids: seq<string>)
      requires report.Value() == EMPTY
      modifies repository, report
      ensures texteUid.Some? ==> uids == Cut([texteUid.value], limit)
      ensures texteUid.None? ==> exists all :: IsPendingList(old(repository.db), dossier, all) && uids == Cut(all, limit)
      ensures dryRun ==> repository.db == old(repository.db)
                         && report.Value() == EMPTY.(processed := |uids|, skipped := |uids|)
      ensures !dryRun ==> repository.db == RunStore(old(repository.db), uids, weather, tracking, now)
      ensures !dryRun ==> report.Value() == RunReport(RunOutcomes(old(repository.db), uids, weather, tracking, now))
    {
      if texteUid.Some? {
        uids := [texteUid.value];
      } else {
        uids := PendingTexteUids(repository.db, dossier);
      }
      uids := Cut(uids, limit);
      ghost var start := repository.db;
      for i := 0 to |uids|
        invariant dryRun ==> repository.db == start && report.Value() == EMPTY.(processed := i, skipped := i)
        invariant !dryRun ==> repository.db == RunStore(start, uids[..i], weather, tracking, now)
        invariant !dryRun ==> report.Value() == RunReport(RunOutcomes(start, uids[..i], weather, tracking, now))
      {
        assert uids[..i + 1][..i] == uids[..i];
        if dryRun {
          report.processed := report.processed + 1;
          report.skipped := report.skipped + 1;
        } else {
          OutcomesSnoc(start, uids[..i], uids[i], weather, tracking, now);
          CollectOne(uids[i], weather, tracking, now);
        }
      }
      assert uids[..|uids|] == uids;
    }
  }

  // ---------------------------------------------------------------- what a run leaves pending

  /** A step touches no document row, and gives a header row to its own text only, iff it succeeds. */
  lemma StepAddresses(s: Store, uid: string, weather: Weather, tracking: Cols, now: int, other: string)
    ensures var s' := Stepped(s, uid, weather, tracking, now);
            && (TextAddress(other) in s'.rows <==> TextAddress(other) in s.rows || (other == uid && Succeeds(uid, weather)))
            && (TexteAddress(other) in s'.rows <==> TexteAddress(other) in s.rows)
            && (TexteAddress(other) in s.rows ==> s'.rows[TexteAddress(other)] == s.rows[TexteAddress(other)])
  {
    if Succeeds(uid, weather) && weather(uid).Served? {
      var f := weather(uid);
      var h := TextHeader(s, uid, Entity([uid], f.cols), tracking, now);
      ArticlesLeaveOtherTables(h, f.articles, now, TextAddress(other));
      ArticlesLeaveOtherTables(h, f.articles, now, TexteAddress(other));
    }
  }

  lemma {:induction false} RunAddresses(s: Store, uids: seq<string>, weather: Weather, tracking: Cols, now: int, other: string)
    ensures var s' := RunStore(s, uids, weather, tracking, now);
            && (TextAddress(other) in s'.rows <==> TextAddress(other) in s.rows || (other in uids && Succeeds(other, weather)))
            && (TexteAddress(other) in s'.rows <==> TexteAddress(other) in s.rows)
            && (TexteAddress(other) in s.rows ==> s'.rows[TexteAddress(other)] == s.rows[TexteAddress(other)])
  {
    if uids == [] {
    } else {
      var init, last := uids[..|uids| - 1], uids[|uids| - 1];
      RunAddresses(s, init, weather, tracking, now, other);
      StepAddresses(RunStore(s, init, weather, tracking, now), last, weather, tracking, now, other);
      assert other in uids <==> other in init || other == last;
    }
  }

  /** After a run, in any scope, exactly the uids it dealt with have left the pending set. */
  lemma PendingAfterRun(s: Store, uids: seq<string>, weather: Weather, tracking: Cols, now: int, scope: Option<string>)
    ensures PendingSet(RunStore(s, uids, weather, tracking, now), scope)
         == PendingSet(s, scope) - set u | u in uids && Succeeds(u, weather)
  {
    var s' := RunStore(s, uids, weather, tracking, now);
    forall u ensures u in PendingSet(s', scope) <==> u in PendingSet(s, scope) && !(u in uids && Succeeds(u, weather)) {
      PendingSetIs(s, scope, u);
      PendingSetIs(s', scope, u);
      RunAddresses(s, uids, weather, tracking, now, u);
    }
  }

  lemma PendingListMembers(s: Store, dossier: Option<string>, all: seq<string>)
    requires IsPendingList(s, dossier, all)
    ensures forall u :: u in all <==> IsPending(s, dossier, u)
    ensures Distinct(all)
  {
    forall u ensures u in all <==> IsPending(s, dossier, u) {
      PendingSetIs(s, dossier, u);
      assert u in all <==> u in multiset(all);
    }
    forall u | u in all ensures multiset(all)[u] <= 1 {
      assert multiset(PendingSet(s, dossier))[u] <= 1;
    }
    OnceEachIsDistinct(all);
  }

  lemma LeftOver(pending: set<string>, all: seq<string>, chosen: seq<string>, weather: Weather)
    requires (forall u :: u in pending <==> u in all) && forall u :: u in chosen ==> u in all
    ensures pending - (set u | u in chosen && Succeeds(u, weather))
         == (set u | u in all && u !in chosen) + (set u | u in chosen && !Succeeds(u, weather))
  {
  }

  lemma CutTakesFrom(all: seq<string>, limit: Option<int>)
    ensures forall u :: u in Cut(all, limit) ==> u in all
    ensures limit.None? || limit.value == 0 ==> Cut(all, limit) == all
  {
  }

  /**
   After an incremental run what is pending is what failed plus what the limit cut;
   without limit and failures nothing is.
   */
  lemma IncrementalRunLeaves(s: Store, dossier: Option<string>, limit: Option<int>, all: seq<string>, weather: Weather, tracking: Cols, now: int)
    requires IsPendingList(s, dossier, all)
    ensures var chosen := Cut(all, limit);
            var left := PendingSet(RunStore(s, chosen, weather, tracking, now), dossier);
            && left == (set u | u in all && u !in chosen) + (set u | u in chosen && !Succeeds(u, weather))
            && ((limit.None? || limit.value == 0) && (forall u :: u in all ==> Succeeds(u, weather)) ==> left == {})
  {
    var chosen := Cut(all, limit);
    PendingAfterRun(s, chosen, weather, tracking, now, dossier);
    PendingListMembers(s, dossier, all);
    forall u ensures u in PendingSet(s, dossier) <==> u in all { PendingSetIs(s, dossier, u); }
    CutTakesFrom(all, limit);
    LeftOver(PendingSet(s, dossier), all, chosen, weather);
  }

  lemma {:induction false} UnknownTextsAreNotUpdates(s: Store, uids: seq<string>, weather: Weather, tracking: Cols, now: int)
    requires Distinct(uids) && forall u :: u in uids ==> TextAddress(u) !in s.rows
    ensures Updated !in RunOutcomes(s, uids, weather, tracking, now)
    ensures |RunOutcomes(s, uids, weather, tracking, now)| == |uids|
  {
    if uids == [] {
    } else {
      var init, last := uids[..|uids| - 1], uids[|uids| - 1];
      assert last in uids && forall u :: u in init ==> u in uids;
      assert Distinct(init) && last !in init;
      UnknownTextsAreNotUpdates(s, init, weather, tracking, now);
      RunAddresses(s, init, weather, tracking, now, last);
    }
  }

  lemma {:induction false} NothingUpdated(items: seq<Outcome>)
    requires Updated !in items
    ensures RunReport(items).updated == 0
  {
    if items == [] {
    } else {
      assert items[|items| - 1] in items;
      NothingUpdated(items[..|items| - 1]);
    }
  }

  /** No step of an incremental run is an update, and the counters add up. */
  lemma NoStepUpdates(s: Store, dossier: Option<string>, limit: Option<int>, all: seq<string>, weather: Weather, tracking: Cols, now: int)
    requires IsPendingList(s, dossier, all)
    ensures var r := RunReport(RunOutcomes(s, Cut(all, limit), weather, tracking, now));
            r.updated == 0 && r.processed == |Cut(all, limit)| == r.created + r.skipped + r.failed
  {
    var chosen := Cut(all, limit);
    PendingListMembers(s, dossier, all);
    assert Distinct(chosen) && forall u :: u in chosen ==> u in all;
    UnknownTextsAreNotUpdates(s, chosen, weather, tracking, now);
    NothingUpdated(RunOutcomes(s, chosen, weather, tracking, now));
    RunReportIs(RunOutcomes(s, chosen, weather, tracking, now));
  }

  // ---------------------------------------------------------------- any sequence of runs

  /** What happens to the store over time: incremental runs, and writes by the other collections. */
  datatype Event =
    | Run(dossier: Option<string>, limit: Option<int>, all: seq<string>, weather: Weather, tracking: Cols, now: int)
    | OtherWrites(rows: seq<Write>, now: int)

  function Next(s: Store, e: Event): Store {
    match e
    case Run(_, limit, all, weather, tracking, now) => RunStore(s, Cut(all, limit), weather, tracking, now)
    case OtherWrites(rows, now) => ApplyAll(s, rows, now)
  }

  function After(s: Store, events: seq<Event>): Store {
    if events == [] then s else Next(After(s, events[..|events| - 1]), events[|events| - 1])
  }

  /** Each run works on the pending list of its own moment. */
  ghost predicate IsHistory(s: Store, events: seq<Event>) {
    events == [] ||
    (&& IsHistory(s, events[..|events| - 1])
     && var last := events[|events| - 1];
        last.Run? ==> IsPendingList(After(s, events[..|events| - 1]), last.dossier, last.all))
  }

  function DealtWith(uids: seq<string>, weather: Weather): seq<string> {
    if uids == [] then []
    else
      var before := DealtWith(uids[..|uids| - 1], weather);
      if Succeeds(uids[|uids| - 1], weather) then before + [uids[|uids| - 1]] else before
  }

  /** Every uid fetched or marked unavailable, over all runs, in order. */
  function Successes(events: seq<Event>): seq<string> {
    if events == [] then []
    else
      var before, last := Successes(events[..|events| - 1]), events[|events| - 1];
      if last.Run? then before + DealtWith(Cut(last.all, last.limit), last.weather) else before
  }

  lemma {:induction false} DealtWithMembers(uids: seq<string>, weather: Weather)
    requires Distinct(uids)
    ensures Distinct(DealtWith(uids, weather))
    ensures forall u :: u in DealtWith(uids, weather) <==> u in uids && Succeeds(u, weather)
  {
    if uids == [] {
    } else {
      var init, last := uids[..|uids| - 1], uids[|uids| - 1];
      assert Distinct(init) && last !in init && uids == init + [last];
      DealtWithMembers(init, weather);
    }
  }

  lemma SuccessesOfRun(events: seq<Event>, k: nat, u: string)
    requires k < |events| && events[k].Run?
    ensures Distinct(Cut(events[k].all, events[k].limit)) && u in Cut(events[k].all, events[k].limit) && Succeeds(u, events[k].weather) ==>
              u in Successes(events)
    decreases |events|
  {
    var n := |events| - 1;
    if k < n {
      assert events[..n][k] == events[k];
      SuccessesOfRun(events[..n], k, u);
    } else if Distinct(Cut(events[k].all, events[k].limit)) {
      DealtWithMembers(Cut(events[k].all, events[k].limit), events[k].weather);
    }
  }

  /** Over any history no uid succeeds twice: whatever succeeded has its header row for good. */
  lemma {:induction false} EachUidSucceedsAtMostOnce(s: Store, events: seq<Event>)
    requires IsHistory(s, events)
    ensures Distinct(Successes(events))
    ensures forall u :: u in Successes(events) ==> TextAddress(u) in After(s, events).rows
  {
    if events == [] {
    } else {
      var init, last := events[..|events| - 1], events[|events| - 1];
      var before := After(s, init);
      EachUidSucceedsAtMostOnce(s, init);
      match last {
        case Run(dossier, limit, all, weather, tracking, now) =>
          PendingListMembers(before, dossier, all);
          var chosen := Cut(all, limit);
          DealtWithMembers(chosen, weather);
          forall u | u in Successes(events) ensures TextAddress(u) in After(s, events).rows {
            RunAddresses(before, chosen, weather, tracking, now, u);
          }
          forall u | u in DealtWith(chosen, weather) ensures u !in Successes(init) {
            assert u in all;
          }
          DistinctAppend(Successes(init), DealtWith(chosen, weather));
        case OtherWrites(rows, now) =>
          forall u | u in Successes(events) ensures TextAddress(u) in After(s, events).rows {
            RowAfter(before, rows, now, TextAddress(u));
          }
      }
    }
  }

  // ---------------------------------------------------------------- the kind of a text

  lemma {:induction false} WithoutNumberIs(head: string, digits: string)
    requires head == "" || !IsDigit(head[|head| - 1])
    requires forall k :: 0 <= k < |digits| ==> IsDigit(digits[k])
    ensures WithoutNumber(head + digits) == head
  {
    if digits == "" {
      assert head + digits == head;
    } else {
      assert (head + digits)[..|head + digits| - 1] == head + digits[..|digits| - 1];
      WithoutNumberIs(head, digits[..|digits| - 1]);
    }
  }

  lemma MarkIsRead(head: string, mark: string, digits: string)
    requires mark != "" && !IsDigit(mark[|mark| - 1])
    requires digits != "" && forall k :: 0 <= k < |digits| ==> IsDigit(digits[k])
    ensures WithoutNumber(head + mark + digits) == head + mark && EndsWith(head + mark, mark)
    ensures |WithoutNumber(head + mark + digits)| < |head + mark + digits|
  {
    WithoutNumberIs(head + mark, digits);
  }

  /** Without a number, or with another mark before it, there is no kind. */
  lemma NoKindWithoutMark(head: string, digits: string)
    requires (head == "" || !IsDigit(head[|head| - 1])) && forall k :: 0 <= k < |digits| ==> IsDigit(digits[k])
    requires digits == "" || !(EndsWith(head, "B") || EndsWith(head, "BTC") || EndsWith(head, "BTA"))
    ensures KindOf(head + digits) == None
  {
    WithoutNumberIs(head, digits);
  }

  lemma IsDigitIs(c: char)
    ensures IsDigit(c) <==> c in "0123456789"
  {
    if IsDigit(c) { assert c == "0123456789"[c as int - '0' as int]; }
  }

  /** The mark right before the number decides: B, BTC, BTA; TAP has no kind. */
  lemma KindIsTheMark(head: string, digits: string)
    requires digits != "" && forall k :: 0 <= k < |digits| ==> IsDigit(digits[k])
    ensures KindOf(head + "BTC" + digits) == Some(Commission)
    ensures KindOf(head + "BTA" + digits) == Some(Adopted)
    ensures KindOf(head + "B" + digits) == Some(Deposited)
    ensures KindOf(head + "TAP" + digits) == None
  {
    MarkIsRead(head, "BTC", digits);
    MarkIsRead(head, "BTA", digits);
    MarkIsRead(head, "B", digits);
    MarkIsRead(head, "TAP", digits);
    assert (head + "B")[|head|] == 'B';
    assert (head + "TAP")[|head| + 2] == 'P';
  }
}

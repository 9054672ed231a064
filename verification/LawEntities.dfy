/** A legislative dossier and what is computed from it. */
module LawEntities {
  import opened Prelude
  import opened Sorting
  import opened ReadingCodes

  datatype Stage = Stage(
    uid: string, code: string, wording: string, organe: Option<string>, order: int,
    startedAt: Option<int>, examinedAt: Option<int>, concludedAt: Option<int>,
    decision: Option<string>, decisionCode: Option<string>,
    texteUid: Option<string>, commissionTexteUid: Option<string>, adoptedTexteUid: Option<string>,
    sittings: seq<string>)

  datatype Texte = Texte(
    uid: string, dossierUid: string, legislature: int, kind: Option<string>, number: Option<int>,
    depositedAt: Option<int>, content: string)

  datatype Law = Law(
    dossierUid: string, legislature: int, title: string, senateUrl: Option<string>,
    procedureCode: string, procedureLabel: Option<string>, initiators: seq<string>, withdrawn: bool,
    stages: seq<Stage>, textes: seq<Texte>, s3Key: Option<string>)

  datatype LawStatus = Submitted | InDiscussion | AdoptedLaw | RejectedLaw | Promulgated | Withdrawn

  datatype LawType = Bill | Proposition

  const REJECTED_CODES := {"TSORTF07", "TMRC01"}

  predicate IsReading(s: Stage) { s.code in READING_CODES }

  predicate Rejected(s: Stage) { s.decisionCode.Some? && s.decisionCode.value in REJECTED_CODES }

  // ---------------------------------------------------------------- properties of the entity

  predicate IsLaw(l: Law) {
    l.procedureCode in {"1", "2", "3", "4", "5", "6", "7", "21", "23", "33"}
  }

  predicate StartsWithProjet(title: string) {
    |title| >= 6 && forall k :: 0 <= k < 6 ==> LowerAscii(title[k]) == "projet"[k]
  }

  /** Organic and constitutional texts (5, 7) are told apart by their title. */
  function TypeOf(l: Law): Option<LawType> {
    if !IsLaw(l) then None
    else if l.procedureCode in {"2", "23"} then Some(Proposition)
    else if l.procedureCode in {"5", "7"} && !StartsWithProjet(l.title) then Some(Proposition)
    else Some(Bill)
  }

  function DepositedAt(stages: seq<Stage>): Option<int> {
    if stages == [] then None
    else if stages[0].startedAt.Some? then stages[0].startedAt
    else DepositedAt(stages[1..])
  }

  predicate IsPromulgated(l: Law) {
    exists i :: 0 <= i < |l.stages| && l.stages[i].code == "PROM" && l.stages[i].concludedAt.Some?
  }

  predicate Decided(s: Stage) { IsReading(s) && Truthy(s.decisionCode) }

  /** [s for s in stages if keep(s)][-1], if any. */
  function LastSuch(keep: Stage -> bool, stages: seq<Stage>): Option<Stage> {
    if stages == [] then None
    else
      var last := stages[|stages| - 1];
      if keep(last) then Some(last) else LastSuch(keep, stages[..|stages| - 1])
  }

  function LastDecided(stages: seq<Stage>): Option<Stage> { LastSuch(Decided, stages) }

  function Status(l: Law): LawStatus {
    if IsPromulgated(l) then Promulgated
    else if l.withdrawn then Withdrawn
    else
      var decided := LastDecided(l.stages);
      if decided.Some? && Rejected(decided.value) then RejectedLaw
      else if decided.Some? && decided.value.code == "ANLDEF" then AdoptedLaw
      else if exists i :: 0 <= i < |l.stages| && l.stages[i].examinedAt.Some? then InDiscussion
      else Submitted
  }

  ghost predicate LastAt(keep: Stage -> bool, stages: seq<Stage>, i: int) {
    0 <= i < |stages| && keep(stages[i]) && forall j :: i < j < |stages| ==> !keep(stages[j])
  }

  lemma {:induction false} LastSuchIs(keep: Stage -> bool, stages: seq<Stage>)
    ensures LastSuch(keep, stages).None? <==> forall i :: 0 <= i < |stages| ==> !keep(stages[i])
    ensures LastSuch(keep, stages).Some? ==> exists i :: LastAt(keep, stages, i) && stages[i] == LastSuch(keep, stages).value
  {
    if stages == [] {
    } else {
      var k := |stages| - 1;
      LastSuchIs(keep, stages[..k]);
      if keep(stages[k]) {
        assert LastAt(keep, stages, k);
      } else if LastSuch(keep, stages).Some? {
        var i :| LastAt(keep, stages[..k], i) && stages[..k][i] == LastSuch(keep, stages).value;
        assert LastAt(keep, stages, i);
      }
    }
  }

  /** Some reading is decided, and the last one decided satisfies `outcome`. */
  ghost predicate LastDecidedIsA(l: Law, outcome: Stage -> bool) {
    exists i :: LastAt(Decided, l.stages, i) && outcome(l.stages[i])
  }

  predicate Definitive(s: Stage) { !Rejected(s) && s.code == "ANLDEF" }

  ghost predicate SomeExamined(l: Law) { exists i :: 0 <= i < |l.stages| && l.stages[i].examinedAt.Some? }

  /**
   When a law shows each outcome: promulgation first, withdrawal next, then the last reading
   decided if it was rejected or definitive, then whether anything was examined.
   */
  lemma StatusIs(l: Law)
    ensures IsPromulgated(l) <==> exists s :: s in l.stages && s.code == "PROM" && s.concludedAt.Some?
    ensures forall s :: Decided(s) <==> ReadingOf(s.code).Some? && s.decisionCode.Some? && s.decisionCode != Some("")
    ensures var ended := IsPromulgated(l) || l.withdrawn;
            var voted := LastDecidedIsA(l, Rejected) || LastDecidedIsA(l, Definitive);
            && (Status(l) == Promulgated <==> IsPromulgated(l))
            && (Status(l) == Withdrawn <==> !IsPromulgated(l) && l.withdrawn)
            && (Status(l) == RejectedLaw <==> !ended && LastDecidedIsA(l, Rejected))
            && (Status(l) == AdoptedLaw <==> !ended && LastDecidedIsA(l, Definitive))
            && (Status(l) == InDiscussion <==> !ended && !voted && SomeExamined(l))
            && (Status(l) == Submitted <==> !ended && !voted && !SomeExamined(l))
  {
    forall s: Stage ensures Decided(s) <==> ReadingOf(s.code).Some? && s.decisionCode.Some? && s.decisionCode != Some("") {
      ReadingCodesAgree(s.code);
    }
    LastSuchIs(Decided, l.stages);
    forall i, j | LastAt(Decided, l.stages, i) && LastAt(Decided, l.stages, j) ensures i == j { }
  }

  // ---------------------------------------------------------------- what a reading shows

  datatype Calendar = Scheduled | Ongoing | Completed

  datatype ReadingRow = ReadingRow(chamber: Chamber, number: nat, status: LawStatus, calendar: Calendar, startedAt: Option<int>, concludedAt: Option<int>)

  function ReadingStatus(s: Stage): LawStatus {
    if Rejected(s) then RejectedLaw
    else if Truthy(s.decisionCode) then AdoptedLaw
    else if s.examinedAt.Some? then InDiscussion else Submitted
  }

  function ReadingCalendar(s: Stage): Calendar {
    if s.concludedAt.Some? then Completed else if s.examinedAt.Some? then Ongoing else Scheduled
  }

  /** One row per stage that is a reading, in order. */
  function ReadingRows(stages: seq<Stage>): seq<ReadingRow> {
    if stages == [] then []
    else
      var s := stages[0];
      match ReadingOf(s.code)
      case None => ReadingRows(stages[1..])
      case Some((chamber, number)) =>
        [ReadingRow(chamber, number, ReadingStatus(s), ReadingCalendar(s), s.startedAt, s.concludedAt)] + ReadingRows(stages[1..])
  }

  predicate NoCode(s: Stage) { s.decisionCode.None? || s.decisionCode == Some("") }

  /** When a reading shows each outcome and each calendar. */
  lemma ReadingShows(s: Stage)
    ensures ReadingStatus(s) == RejectedLaw <==> s.decisionCode == Some("TSORTF07") || s.decisionCode == Some("TMRC01")
    ensures ReadingStatus(s) == AdoptedLaw <==>
              !NoCode(s) && s.decisionCode != Some("TSORTF07") && s.decisionCode != Some("TMRC01")
    ensures ReadingStatus(s) == InDiscussion <==> NoCode(s) && s.examinedAt.Some?
    ensures ReadingStatus(s) == Submitted <==> NoCode(s) && s.examinedAt.None?
    ensures ReadingCalendar(s) == Completed <==> s.concludedAt.Some?
    ensures ReadingCalendar(s) == Ongoing <==> s.concludedAt.None? && s.examinedAt.Some?
  {
  }

  /** The row of a stage: its chamber and number, outcome, calendar and dates. */
  function RowOfStage(): Stage -> Option<ReadingRow> {
    (s: Stage) =>
      var key := ReadingOf(s.code);
      if key.None? then None
      else Some(ReadingRow(key.value.0, key.value.1, ReadingStatus(s), ReadingCalendar(s), s.startedAt, s.concludedAt))
  }

  /** One row per stage that is a reading, in order. */
  lemma {:induction false} ReadingRowsAre(stages: seq<Stage>)
    ensures ReadingRows(stages) == FilterMap(RowOfStage(), stages)
  {
    if stages == [] {
    } else {
      ReadingRowsAre(stages[1..]);
      FilterMapCons(RowOfStage(), stages);
    }
  }

  /** Letter case aside. */
  predicate BeginsWithProjet(title: string) {
    |title| >= 6 && LowerAscii(title[0]) == 'p' && LowerAscii(title[1]) == 'r' && LowerAscii(title[2]) == 'o'
    && LowerAscii(title[3]) == 'j' && LowerAscii(title[4]) == 'e' && LowerAscii(title[5]) == 't'
  }

  /** Which dossiers are laws, bills and propositions. */
  lemma LawTypeIs(l: Law)
    ensures IsLaw(l) <==> TypeOf(l).Some?
    ensures TypeOf(l) == Some(Bill) <==>
              || l.procedureCode in {"1", "3", "4", "6", "21", "33"}
              || (l.procedureCode in {"5", "7"} && BeginsWithProjet(l.title))
    ensures TypeOf(l) == Some(Proposition) <==>
              || l.procedureCode in {"2", "23"}
              || (l.procedureCode in {"5", "7"} && !BeginsWithProjet(l.title))
  {
    assert StartsWithProjet(l.title) <==> BeginsWithProjet(l.title) by {
      if StartsWithProjet(l.title) {
        assert forall k :: 0 <= k < 6 ==> LowerAscii(l.title[k]) == "projet"[k];
      }
    }
  }

  // ---------------------------------------------------------------- the number of a dossier

  predicate MarkAt(uid: string, i: nat) { i + 3 <= |uid| && uid[i..i + 3] == "BTC" }

  predicate IsCommissionText(t: Texte) { exists i :: 0 <= i < |t.uid| && MarkAt(t.uid, i) }

  predicate Numbered(t: Texte) {
    && t.kind.Some? && t.kind.value in {"PRJL", "PION"}
    && t.number.Some? && t.number.value != 0
    && !IsCommissionText(t)
  }

  /** The texts that may give the number: a projet or proposition with a number, whose uid has no BTC in it. */
  lemma NumberedIff(t: Texte)
    ensures Numbered(t) <==>
              && (t.kind == Some("PRJL") || t.kind == Some("PION")) && t.number.Some? && t.number != Some(0)
              && !exists before, after :: t.uid == before + "BTC" + after
  {
    if before, after :| t.uid == before + "BTC" + after {
      assert t.uid[|before|..|before| + 3] == "BTC";
      assert MarkAt(t.uid, |before|);
    }
    if IsCommissionText(t) {
      var i :| 0 <= i < |t.uid| && MarkAt(t.uid, i);
      assert t.uid == t.uid[..i] + "BTC" + t.uid[i + 3..];
    }
  }

  function NumberedTextes(ts: seq<Texte>): (r: seq<Texte>)
    ensures forall t :: t in r <==> t in ts && Numbered(t)
  {
    if ts == [] then []
    else if Numbered(ts[0]) then [ts[0]] + NumberedTextes(ts[1..])
    else NumberedTextes(ts[1..])
  }

  function DateOf(t: Texte): int { if t.depositedAt.Some? then t.depositedAt.value else DATE_MAX }

  function NumberOf(t: Texte): int { if t.number.Some? then t.number.value else 0 }

  /** Key (not from the Assemblée, date or date.max, number). */
  function DepositOrder(): (Texte, Texte) -> bool {
    (x: Texte, y: Texte) =>
      if FromAssemblee(x.uid) != FromAssemblee(y.uid) then FromAssemblee(x.uid)
      else DateOf(x) < DateOf(y) || (DateOf(x) == DateOf(y) && NumberOf(x) <= NumberOf(y))
  }

  function Number(ts: seq<Texte>): Option<int> {
    var deposited := Sort(NumberedTextes(ts), DepositOrder());
    if deposited == [] then None else deposited[0].number
  }

  lemma DepositOrderIsTotal()
    ensures Total(DepositOrder()) && Transitive(DepositOrder())
  {
  }

  /** A numbered document that no other precedes. */
  ghost predicate Leads(t: Texte, ts: seq<Texte>) {
    t in ts && Numbered(t) && forall u :: u in ts && Numbered(u) ==> DepositOrder()(t, u)
  }

  lemma NumberIsTheLeaders(ts: seq<Texte>)
    ensures Number(ts).None? <==> forall t :: t in ts ==> !Numbered(t)
    ensures Number(ts).Some? ==> exists t :: Leads(t, ts) && Number(ts) == t.number
  {
    var kept := NumberedTextes(ts);
    var le := DepositOrder();
    var sorted := Sort(kept, le);
    DepositOrderIsTotal();
    SortSorts(kept, le);
    forall t ensures t in sorted <==> t in ts && Numbered(t) { SortMembers(kept, le, t); }
    if sorted == [] {
      forall t | t in ts ensures !Numbered(t) { assert t !in sorted; }
    } else {
      assert sorted[0] in sorted;
      forall u | u in ts && Numbered(u) ensures le(sorted[0], u) {
        assert u in sorted;
        var k :| 0 <= k < |sorted| && sorted[k] == u;
        assert k > 0 ==> le(sorted[0], sorted[k]);
      }
      assert Leads(sorted[0], ts);
    }
  }

  /** A leader is of the Assemblée if any numbered text is; among those of its chamber none is earlier, nor of its day with a smaller number. */
  lemma LeaderIs(t: Texte, ts: seq<Texte>, u: Texte)
    requires Leads(t, ts) && u in ts && Numbered(u)
    ensures FromAssemblee(u.uid) ==> FromAssemblee(t.uid)
    ensures FromAssemblee(u.uid) == FromAssemblee(t.uid) && u.depositedAt.Some? && u.depositedAt.value < DATE_MAX ==>
              t.depositedAt.Some? && t.depositedAt.value <= u.depositedAt.value
    ensures FromAssemblee(u.uid) == FromAssemblee(t.uid) && u.depositedAt == t.depositedAt ==> t.number.value <= u.number.value
  {
    assert DepositOrder()(t, u);
  }

  lemma LeadersAgree(x: Texte, y: Texte, ts: seq<Texte>)
    requires Leads(x, ts) && Leads(y, ts)
    ensures x.number == y.number
  {
    assert DepositOrder()(x, y) && DepositOrder()(y, x);
  }

  /** The number does not depend on the order in which the database lists the documents. */
  lemma NumberIgnoresOrder(a: seq<Texte>, b: seq<Texte>)
    requires forall t :: t in a <==> t in b
    ensures Number(a) == Number(b)
  {
    NumberIsTheLeaders(a);
    NumberIsTheLeaders(b);
    if Number(a).Some? {
      var x :| Leads(x, a) && Number(a) == x.number;
      var y :| Leads(y, b) && Number(b) == y.number;
      assert Leads(y, a);
      LeadersAgree(x, y, a);
    }
  }
}

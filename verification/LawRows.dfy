/** The rows of public.law: a slug written once, and columns computed from the dossier, its stages and its documents. */
module LawRows {
  import opened Prelude
  import opened LastWins
  import opened Slugs
  import opened LawEntities
  import Links = ReadingLinks
  import SittingLinks

  const SLUG_MAX: nat := 120

  datatype Columns = Columns(
    legislature: int, title: string, lawType: Option<LawType>, number: Option<int>, status: LawStatus, depositedAt: Option<int>)

  datatype LawRow = LawRow(id: int, slug: string, columns: Columns)

  datatype Table = Table(rows: map<string, LawRow>, nextId: int)

  function ColumnsOf(l: Law): Columns {
    Columns(l.legislature, l.title, TypeOf(l), Number(l.textes), Status(l), DepositedAt(l.stages))
  }

  function SlugsOf(t: Table): SlugTable { map e | e in t.rows :: t.rows[e].slug }

  /** Everything but the slug is written again on a conflict, and the sequence advances. */
  function Upserted(fold: Fold, t: Table, l: Law): Table {
    var uid := l.dossierUid;
    var row :=
      if uid in t.rows then t.rows[uid].(columns := ColumnsOf(l))
      else LawRow(t.nextId, UniqueSlug(fold, SlugsOf(t), Slugify(fold, l.title, SLUG_MAX), uid), ColumnsOf(l));
    Table(t.rows[uid := row], t.nextId + 1)
  }

  /** A run over the dossiers of raw.law; those that are not laws are skipped. */
  function Projected(fold: Fold, t: Table, ls: seq<Law>): Table {
    if ls == [] then t
    else
      var before, l := Projected(fold, t, ls[..|ls| - 1]), ls[|ls| - 1];
      if IsLaw(l) then Upserted(fold, before, l) else before
  }

  class PublicLaws {
    var table: Table

    constructor (initial: Table)
      ensures table == initial
    {
      table := initial;
    }

    method UpsertLaw(fold: Fold, l: Law) returns (id: int, created: bool)
      modifies this
      ensures table == Upserted(fold, old(table), l)
      ensures l.dossierUid in table.rows && id == table.rows[l.dossierUid].id
      ensures created <==> l.dossierUid !in old(table).rows
    {
      var uid := l.dossierUid;
      created := uid !in table.rows;
      var slug := UniqueSlug(fold, SlugsOf(table), Slugify(fold, l.title, SLUG_MAX), uid);
      if created {
        table := Table(table.rows[uid := LawRow(table.nextId, slug, ColumnsOf(l))], table.nextId + 1);
      } else {
        table := Table(table.rows[uid := table.rows[uid].(columns := ColumnsOf(l))], table.nextId + 1);
      }
      id := table.rows[uid].id;
    }

    method ProjectAll(fold: Fold, ls: seq<Law>) returns (created: nat, updated: nat, skipped: nat)
      modifies this
      ensures table == Projected(fold, old(table), ls)
      ensures created + updated + skipped == |ls|
    {
      created, updated, skipped := 0, 0, 0;
      for k := 0 to |ls|
        invariant table == Projected(fold, old(table), ls[..k])
        invariant created + updated + skipped == k
      {
        assert ls[..k + 1][..k] == ls[..k];
        if !IsLaw(ls[k]) {
          skipped := skipped + 1;
        } else {
          var _, isNew := UpsertLaw(fold, ls[k]);
          if isNew { created := created + 1; } else { updated := updated + 1; }
        }
      }
      assert ls[..|ls|] == ls;
    }
  }

  // ---------------------------------------------------------------- slugs and ids

  function RequestOf(fold: Fold): Law -> Option<Request> {
    (l: Law) => if IsLaw(l) then Some(Request(l.dossierUid, Slugify(fold, l.title, SLUG_MAX))) else None
  }

  lemma UpsertAsksForASlug(fold: Fold, t: Table, l: Law)
    requires IsLaw(l)
    ensures SlugsOf(Upserted(fold, t, l)) == Asked(fold, SlugsOf(t), RequestOf(fold)(l).value)
  {
    var after, asked := SlugsOf(Upserted(fold, t, l)), Asked(fold, SlugsOf(t), RequestOf(fold)(l).value);
    forall e ensures (e in after <==> e in asked) && (e in after ==> after[e] == asked[e]) { }
  }

  /** On slugs, the projection of laws does what the write-once table does: its laws hold for public.law too. */
  lemma {:induction false} SlugsFollowTheWriteOnceTable(fold: Fold, t: Table, ls: seq<Law>)
    ensures SlugsOf(Projected(fold, t, ls)) == AllAsked(fold, SlugsOf(t), FilterMap(RequestOf(fold), ls))
  {
    if ls == [] {
    } else {
      var init, last := ls[..|ls| - 1], ls[|ls| - 1];
      SlugsFollowTheWriteOnceTable(fold, t, init);
      if IsLaw(last) {
        UpsertAsksForASlug(fold, Projected(fold, t, init), last);
        var asked := FilterMap(RequestOf(fold), ls);
        assert asked[..|asked| - 1] == FilterMap(RequestOf(fold), init);
      }
    }
  }

  function Ids(t: Table): map<string, int> { map e | e in t.rows :: t.rows[e].id }

  /** The dossiers as the readings see them are the same ones. */
  ghost predicate SameDossiers(ls: seq<Law>, ds: seq<Links.Dossier>) {
    |ls| == |ds| && forall k :: 0 <= k < |ls| ==> ds[k].uid == ls[k].dossierUid && (ds[k].isLaw <==> IsLaw(ls[k]))
  }

  lemma UpsertGivesTheId(fold: Fold, t: Table, l: Law, p: Links.Public)
    requires p.laws == Ids(t) && p.nextLaw == t.nextId
    ensures Ids(Upserted(fold, t, l)) == Links.WithLaw(p, l.dossierUid).laws
    ensures Upserted(fold, t, l).nextId == Links.WithLaw(p, l.dossierUid).nextLaw
  {
    var after, ids := Ids(Upserted(fold, t, l)), Links.WithLaw(p, l.dossierUid).laws;
    forall e ensures (e in after <==> e in ids) && (e in after ==> after[e] == ids[e]) { }
  }

  /** The ids of the table are the law ids on which readings, links, amendments, texts and ballots are built. */
  lemma {:induction false} IdsAreThoseOfTheReadings(fold: Fold, t: Table, ls: seq<Law>, p: Links.Public, ds: seq<Links.Dossier>)
    requires SameDossiers(ls, ds) && p.laws == Ids(t) && p.nextLaw == t.nextId
    ensures Links.LawsProjected(p, ds).laws == Ids(Projected(fold, t, ls))
    ensures Links.LawsProjected(p, ds).nextLaw == Projected(fold, t, ls).nextId
  {
    if ls == [] {
    } else {
      var n := |ls| - 1;
      IdsAreThoseOfTheReadings(fold, t, ls[..n], p, ds[..n]);
      if IsLaw(ls[n]) {
        var mid := Links.LawsProjected(p, ds[..n]);
        UpsertGivesTheId(fold, Projected(fold, t, ls[..n]), ls[n], mid);
        SittingLinks.ReadingsLeaveTheRest(Links.WithLaw(mid, ds[n].uid), Links.WithLaw(mid, ds[n].uid).laws[ds[n].uid], ds[n].stages);
      }
    }
  }

  // ---------------------------------------------------------------- the same dossiers again

  /** What a dossier of a run writes in the row of a law. */
  function Sends(): Says<Law, string, Columns> {
    (l: Law, uid: string) => if l.dossierUid == uid && IsLaw(l) then Some(ColumnsOf(l)) else None
  }

  /** A row after a run: the columns of the last dossier with its uid; id and slug never move. */
  lemma {:induction false} RowAfter(fold: Fold, t: Table, ls: seq<Law>, uid: string)
    ensures var after, sent := Projected(fold, t, ls).rows, LastAnswer(Sends(), ls, uid);
            && (uid in after <==> uid in t.rows || sent.Some?)
            && (sent.Some? ==> after[uid].columns == sent.value)
            && (uid in t.rows ==> after[uid].id == t.rows[uid].id && after[uid].slug == t.rows[uid].slug)
            && (uid in t.rows && sent.None? ==> after[uid] == t.rows[uid])
  {
    if ls == [] {
    } else {
      RowAfter(fold, t, ls[..|ls| - 1], uid);
    }
  }

  ghost predicate SameColumns(ls: seq<Law>, ls': seq<Law>) {
    |ls| == |ls'| && forall k :: 0 <= k < |ls| ==>
      ls'[k].dossierUid == ls[k].dossierUid && (IsLaw(ls'[k]) <==> IsLaw(ls[k])) && ColumnsOf(ls'[k]) == ColumnsOf(ls[k])
  }

  /** A second run over dossiers with the same columns changes no row. */
  lemma RunAgain(fold: Fold, t: Table, ls: seq<Law>, ls': seq<Law>)
    requires SameColumns(ls, ls')
    ensures var once := Projected(fold, t, ls); Projected(fold, once, ls').rows == once.rows
  {
    var once := Projected(fold, t, ls);
    var twice := Projected(fold, once, ls');
    forall uid ensures Get(twice.rows, uid) == Get(once.rows, uid) {
      RowAfter(fold, t, ls, uid);
      RowAfter(fold, once, ls', uid);
      SameRowByRow(Sends(), ls, uid, Sends(), ls', uid);
    }
    SameDictionary(twice.rows, once.rows);
  }

  // ---------------------------------------------------------------- stages with one position

  function Order(): Stage -> int { (s: Stage) => s.order }

  /** How a decided reading counts for the status: rejected, definitive, or neither. */
  function Outcomes(): Says<Stage, (), LawStatus> {
    (s: Stage, k: ()) =>
      if !Decided(s) then None else Some(if Rejected(s) then RejectedLaw else if s.code == "ANLDEF" then AdoptedLaw else InDiscussion)
  }

  lemma {:induction false} LastOutcome(stages: seq<Stage>)
    ensures var last, said := LastDecided(stages), LastAnswer(Outcomes(), stages, ());
            said == if last.Some? then Outcomes()(last.value, ()) else None
    ensures LastDecided(stages).Some? ==> Decided(LastDecided(stages).value)
  {
    if stages == [] {
    } else {
      LastOutcome(stages[..|stages| - 1]);
    }
  }

  /** The status without promulgation nor withdrawal, from the last outcome. */
  function StatusOf(said: Option<LawStatus>, examined: bool): LawStatus {
    if said == Some(RejectedLaw) || said == Some(AdoptedLaw) then said.value else if examined then InDiscussion else Submitted
  }

  lemma StatusFromOutcome(l: Law)
    ensures !IsPromulgated(l) && !l.withdrawn ==> Status(l) == StatusOf(LastAnswer(Outcomes(), l.stages, ()), SomeExamined(l))
    ensures var said := LastAnswer(Outcomes(), l.stages, ()); said.Some? ==> said.value in {RejectedLaw, AdoptedLaw, InDiscussion}
  {
    LastOutcome(l.stages);
  }

  lemma SameStages(l: Law, other: seq<Stage>)
    requires Permuted(l.stages, other)
    ensures IsPromulgated(l.(stages := other)) <==> IsPromulgated(l)
    ensures SomeExamined(l.(stages := other)) <==> SomeExamined(l)
  {
    PermutedMembers(l.stages, other);
    var l' := l.(stages := other);
    if IsPromulgated(l) || SomeExamined(l) {
      forall i | 0 <= i < |l.stages| ensures l.stages[i] in l'.stages { assert l.stages[i] in l.stages; }
    }
    if IsPromulgated(l') || SomeExamined(l') {
      forall i | 0 <= i < |other| ensures other[i] in l.stages { assert other[i] in other; }
    }
  }

  /** Stages listed by position: every order of ties gives one status iff it is settled otherwise, or the readings that may be the last decided count alike. */
  lemma StatusAnyOrderIff(l: Law)
    requires Ranked(Order(), l.stages)
    ensures (forall other :: IsReordering(Order(), l.stages, other) ==> Status(l.(stages := other)) == Status(l))
       <==> IsPromulgated(l) || l.withdrawn || TopsAgree(Outcomes(), Order(), l.stages, ())
  {
    AnyOrderIff(Outcomes(), Order(), l.stages, ());
    forall other | IsReordering(Order(), l.stages, other)
      ensures (IsPromulgated(l.(stages := other)) <==> IsPromulgated(l)) && (SomeExamined(l.(stages := other)) <==> SomeExamined(l))
    {
      SameStages(l, other);
    }
    StatusFromOutcome(l);
    forall other | IsReordering(Order(), l.stages, other) && !IsPromulgated(l) && !l.withdrawn
      ensures Status(l.(stages := other)) == Status(l) <==> LastAnswer(Outcomes(), other, ()) == LastAnswer(Outcomes(), l.stages, ())
    {
      StatusFromOutcome(l.(stages := other));
      PermutedMembers(l.stages, other);
      SilentRows(Outcomes(), l.stages, ());
      SilentRows(Outcomes(), other, ());
    }
  }

  function Starts(): Says<Stage, (), int> { (s: Stage, k: ()) => s.startedAt }

  function Backwards(): Stage -> int { (s: Stage) => -s.order }

  function Reversed<T>(s: seq<T>): seq<T> { if s == [] then [] else Reversed(s[1..]) + [s[0]] }

  lemma {:induction false} ReversedIs<T>(s: seq<T>)
    ensures |Reversed(s)| == |s| && forall i :: 0 <= i < |s| ==> Reversed(s)[i] == s[|s| - 1 - i]
    ensures Permuted(s, Reversed(s))
  {
    if s == [] {
    } else {
      ReversedIs(s[1..]);
      assert s == [s[0]] + s[1..];
    }
  }

  /** The first stage with a start date is the last one, read backwards. */
  lemma {:induction false} DepositedIsLastBackwards(stages: seq<Stage>)
    ensures DepositedAt(stages) == LastAnswer(Starts(), Reversed(stages), ())
  {
    if stages == [] {
    } else {
      DepositedIsLastBackwards(stages[1..]);
      var back := Reversed(stages);
      assert back[..|back| - 1] == Reversed(stages[1..]);
    }
  }

  lemma ReversedReordering(stages: seq<Stage>, other: seq<Stage>)
    requires IsReordering(Order(), stages, other)
    ensures IsReordering(Backwards(), Reversed(stages), Reversed(other))
  {
    ReversedIs(stages);
    ReversedIs(other);
  }

  lemma ReversedTwice<T>(s: seq<T>)
    ensures Reversed(Reversed(s)) == s
  {
    ReversedIs(s);
    ReversedIs(Reversed(s));
  }

  lemma BackwardReordering(stages: seq<Stage>, back: seq<Stage>)
    requires IsReordering(Backwards(), Reversed(stages), back)
    ensures IsReordering(Order(), stages, Reversed(back))
  {
    ReversedIs(stages);
    ReversedIs(back);
  }

  /** Every order of ties gives one deposit date iff the stages that may start first give one. */
  lemma DepositAnyOrderIff(stages: seq<Stage>)
    requires Ranked(Order(), stages)
    ensures (forall other :: IsReordering(Order(), stages, other) ==> DepositedAt(other) == DepositedAt(stages))
       <==> TopsAgree(Starts(), Backwards(), stages, ())
  {
    ReversedIs(stages);
    PermutedMembers(stages, Reversed(stages));
    assert TopsAgree(Starts(), Backwards(), stages, ()) <==> TopsAgree(Starts(), Backwards(), Reversed(stages), ());
    AnyOrderIff(Starts(), Backwards(), Reversed(stages), ());
    DepositedIsLastBackwards(stages);
    if TopsAgree(Starts(), Backwards(), stages, ()) {
      forall other | IsReordering(Order(), stages, other) ensures DepositedAt(other) == DepositedAt(stages) {
        ReversedReordering(stages, other);
        DepositedIsLastBackwards(other);
      }
    } else {
      var back :| IsReordering(Backwards(), Reversed(stages), back)
                  && LastAnswer(Starts(), back, ()) != LastAnswer(Starts(), Reversed(stages), ());
      BackwardReordering(stages, back);
      DepositedIsLastBackwards(Reversed(back));
      ReversedTwice(back);
    }
  }

  /** So a law that is read again in another listing writes the same columns. */
  lemma RelistedLawHasItsColumns(l: Law, l': Law)
    requires l' == l.(stages := l'.stages, textes := l'.textes)
    requires Ranked(Order(), l.stages) && IsReordering(Order(), l.stages, l'.stages) && Permuted(l.textes, l'.textes)
    requires IsPromulgated(l) || l.withdrawn || TopsAgree(Outcomes(), Order(), l.stages, ())
    requires TopsAgree(Starts(), Backwards(), l.stages, ())
    ensures ColumnsOf(l') == ColumnsOf(l)
  {
    StatusAnyOrderIff(l);
    DepositAnyOrderIff(l.stages);
    PermutedMembers(l.textes, l'.textes);
    NumberIgnoresOrder(l.textes, l'.textes);
    assert Status(l') == Status(l.(stages := l'.stages));
  }
}

/**
 public.debate, written by two projections: the agenda creates one row per sitting,
 the comptes rendus then enrich the same rows.
 */
module DebateProjection {
  import opened Prelude
  import opened Sorting
  import opened Slugs

  const CANCELLED := "Supprimé"

  /** Twelve hours, in the unit of the clock (minutes). */
  const MAX_SITTING_DURATION: int := 720

  datatype AgendaItem = AgendaItem(
    uid: string, legislature: int, startAt: int, endAt: Option<int>, state: Option<string>,
    compteRendu: Option<string>, sessionNumber: Option<int>, title: string, slug: string)

  datatype CompteRendu = CompteRendu(
    uid: string, legislature: int, date: int, sessionNumber: Option<int>, title: Option<string>,
    slug: string, sourceUrl: string)

  datatype Status = Scheduled | Ongoing | Completed | Cancelled

  datatype Row = Row(
    id: nat, sessionNumber: int, title: Option<string>, sessionDate: int, status: Status,
    slug: string, sourceUrl: Option<string>, updatedAt: Option<int>)

  datatype Table = Table(rows: map<string, Row>, nextId: nat)

  /** The columns one projected row names; only a compte rendu names `source_url`. */
  datatype Write = Write(
    ext: string, sessionNumber: int, title: Option<string>, sessionDate: int, status: Status,
    slug: string, sourceUrl: Option<string>)

  function OrZero(n: Option<int>): int { if n.Some? then n.value else 0 }

  function CalendarStatus(item: AgendaItem, now: int): Status {
    if item.state == Some(CANCELLED) then Cancelled
    else if now < item.startAt then Scheduled
    else if Truthy(item.compteRendu) then Completed
    else
      var end := if item.endAt.Some? then item.endAt.value else item.startAt + MAX_SITTING_DURATION;
      if now > end then Completed else Ongoing
  }

  /** The announced end, else twelve hours after the start, in minutes. */
  predicate IsOver(item: AgendaItem, now: int) {
    if item.endAt.Some? then now > item.endAt.value else now > item.startAt + 720
  }

  predicate HasCompteRendu(item: AgendaItem) { item.compteRendu.Some? && item.compteRendu != Some("") }

  /** When a sitting shows each status. */
  lemma CalendarStatusIs(item: AgendaItem, now: int)
    ensures var status, cancelled := CalendarStatus(item, now), item.state == Some("Supprimé");
            && (status == Cancelled <==> cancelled)
            && (status == Scheduled <==> !cancelled && now < item.startAt)
            && (status == Completed <==> !cancelled && item.startAt <= now && (HasCompteRendu(item) || IsOver(item, now)))
            && (status == Ongoing <==> !cancelled && item.startAt <= now && !HasCompteRendu(item) && !IsOver(item, now))
  {
  }

  function AgendaWrite(item: AgendaItem, now: int): Write {
    Write(item.uid, OrZero(item.sessionNumber), Some(item.title), item.startAt, CalendarStatus(item, now), item.slug, None)
  }

  /** state = 'Supprimé' ascending: false, then true, then NULL. */
  function CancelRank(state: Option<string>): nat {
    if state.None? then 2 else if state.value == CANCELLED then 1 else 0
  }

  function ByConfirmedThenStart(): (AgendaItem, AgendaItem) -> bool {
    (x: AgendaItem, y: AgendaItem) =>
      CancelRank(x.state) < CancelRank(y.state) || (CancelRank(x.state) == CancelRank(y.state) && x.startAt <= y.startAt)
  }

  function Filter<T(!new)>(keep: T -> bool, s: seq<T>): (r: seq<T>)
    ensures forall x :: x in r <==> x in s && keep(x)
  {
    if s == [] then [] else if keep(s[0]) then [s[0]] + Filter(keep, s[1..]) else Filter(keep, s[1..])
  }

  function AgendaRows(items: seq<AgendaItem>, legislature: int): seq<AgendaItem> {
    Sort(Filter((i: AgendaItem) => i.legislature == legislature, items), ByConfirmedThenStart())
  }

  /** The earliest confirmed agenda item that references the compte rendu, in any legislature. */
  function AgendaOf(items: seq<AgendaItem>, cr: CompteRendu): Option<AgendaItem> {
    var found := Sort(Filter((i: AgendaItem) => i.compteRendu == Some(cr.uid), items), ByConfirmedThenStart());
    if found == [] then None else Some(found[0])
  }

  function Target(items: seq<AgendaItem>, cr: CompteRendu): string {
    var item := AgendaOf(items, cr);
    if item.Some? && item.value.uid != "" then item.value.uid else cr.uid
  }

  function DebateWrite(items: seq<AgendaItem>, cr: CompteRendu): Write {
    Write(Target(items, cr), OrZero(cr.sessionNumber), cr.title, cr.date, Completed, cr.slug, Some(cr.sourceUrl))
  }

  function CompteRenduRows(crs: seq<CompteRendu>, legislature: int): seq<CompteRendu> {
    Sort(Filter((c: CompteRendu) => c.legislature == legislature, crs), (x: CompteRendu, y: CompteRendu) => x.date <= y.date)
  }

  // ---------------------------------------------------------------- one upsert

  function SlugsOf(t: Table): SlugTable { map e | e in t.rows :: t.rows[e].slug }

  function Upserted(fold: Fold, t: Table, w: Write, now: int): Table {
    var row :=
      if w.ext in t.rows then
        t.rows[w.ext].(
          sessionNumber := w.sessionNumber, title := w.title, sessionDate := w.sessionDate, status := w.status,
          sourceUrl := if w.sourceUrl.Some? then w.sourceUrl else t.rows[w.ext].sourceUrl,
          updatedAt := Some(now))
      else
        Row(t.nextId, w.sessionNumber, w.title, w.sessionDate, w.status,
            UniqueSlug(fold, SlugsOf(t), w.slug, w.ext), w.sourceUrl, None);
    Table(t.rows[w.ext := row], t.nextId + 1)
  }

  function AllUpserted(fold: Fold, t: Table, ws: seq<Write>, now: int): Table {
    if ws == [] then t else Upserted(fold, AllUpserted(fold, t, ws[..|ws| - 1], now), ws[|ws| - 1], now)
  }

  function AgendaWrites(items: seq<AgendaItem>, legislature: int, now: int): seq<Write> {
    var rows := AgendaRows(items, legislature);
    seq(|rows|, i requires 0 <= i < |rows| => AgendaWrite(rows[i], now))
  }

  function DebateWrites(items: seq<AgendaItem>, crs: seq<CompteRendu>, legislature: int): seq<Write> {
    var rows := CompteRenduRows(crs, legislature);
    seq(|rows|, i requires 0 <= i < |rows| => DebateWrite(items, rows[i]))
  }

  // ---------------------------------------------------------------- the projections

  /** How many of the writes find no row: the first write of each unknown key. */
  function CreatedBy(t: Table, ws: seq<Write>): nat {
    if ws == [] then 0
    else
      var init, last := ws[..|ws| - 1], ws[|ws| - 1];
      CreatedBy(t, init) + (if last.ext in t.rows || (exists w :: w in init && w.ext == last.ext) then 0 else 1)
  }

  function LastFor(ws: seq<Write>, ext: string): Option<Write> {
    if ws == [] then None
    else if ws[|ws| - 1].ext == ext then Some(ws[|ws| - 1])
    else LastFor(ws[..|ws| - 1], ext)
  }

  lemma {:induction false} RowsAfter(fold: Fold, t: Table, ws: seq<Write>, now: int, ext: string)
    ensures var t' := AllUpserted(fold, t, ws, now);
            && (ext in t'.rows <==> ext in t.rows || exists w :: w in ws && w.ext == ext)
            && (LastFor(ws, ext).Some? <==> exists w :: w in ws && w.ext == ext)
            && (ext in t.rows ==> t'.rows[ext].id == t.rows[ext].id && t'.rows[ext].slug == t.rows[ext].slug)
  {
    if ws == [] {
    } else {
      var init, last := ws[..|ws| - 1], ws[|ws| - 1];
      RowsAfter(fold, t, init, now, ext);
      assert last in ws && forall w :: w in ws <==> w in init || w == last;
    }
  }

  class PublicDebates {
    var table: Table
    var created: nat
    var updated: nat

    constructor (initial: Table)
      ensures table == initial && created == updated == 0
    {
      table, created, updated := initial, 0, 0;
    }

    method Upsert(fold: Fold, w: Write, now: int)
      modifies this
      ensures table == Upserted(fold, old(table), w, now)
      ensures created == old(created) + (if w.ext in old(table).rows then 0 else 1)
      ensures created + updated == old(created) + old(updated) + 1
    {
      if w.ext in table.rows { updated := updated + 1; } else { created := created + 1; }
      table := Upserted(fold, table, w, now);
    }

    /** One row of a run over `start`, after the rows of `before`. */
    method UpsertNext(fold: Fold, w: Write, now: int, ghost start: Table, ghost before: seq<Write>)
      requires table == AllUpserted(fold, start, before, now)
      modifies this
      ensures table == AllUpserted(fold, start, before + [w], now)
      ensures created - CreatedBy(start, before + [w]) == old(created) - CreatedBy(start, before)
      ensures created + updated == old(created) + old(updated) + 1
    {
      assert (before + [w])[..|before|] == before;
      RowsAfter(fold, start, before, now, w.ext);
      Upsert(fold, w, now);
    }

    method ProjectAgenda(fold: Fold, items: seq<AgendaItem>, legislature: int, now: int)
      modifies this
      ensures table == AllUpserted(fold, old(table), AgendaWrites(items, legislature, now), now)
      ensures created == old(created) + CreatedBy(old(table), AgendaWrites(items, legislature, now))
      ensures created + updated == old(created) + old(updated) + |AgendaWrites(items, legislature, now)|
    {
      var rows := AgendaRows(items, legislature);
      ghost var ws := AgendaWrites(items, legislature, now);
      assert ws[..0] == [] && ws[..|ws|] == ws;
      for i := 0 to |rows|
        invariant table == AllUpserted(fold, old(table), ws[..i], now)
        invariant created == old(created) + CreatedBy(old(table), ws[..i])
        invariant created + updated == old(created) + old(updated) + i
      {
        assert ws[..i + 1] == ws[..i] + [ws[i]] && ws[i] == AgendaWrite(rows[i], now);
        UpsertNext(fold, AgendaWrite(rows[i], now), now, old(table), ws[..i]);
      }
    }

    method ProjectDebates(fold: Fold, items: seq<AgendaItem>, crs: seq<CompteRendu>, legislature: int, now: int)
      modifies this
      ensures table == AllUpserted(fold, old(table), DebateWrites(items, crs, legislature), now)
      ensures created == old(created) + CreatedBy(old(table), DebateWrites(items, crs, legislature))
      ensures created + updated == old(created) + old(updated) + |DebateWrites(items, crs, legislature)|
    {
      var rows := CompteRenduRows(crs, legislature);
      ghost var ws := DebateWrites(items, crs, legislature);
      assert ws[..0] == [] && ws[..|ws|] == ws;
      for i := 0 to |rows|
        invariant table == AllUpserted(fold, old(table), ws[..i], now)
        invariant created == old(created) + CreatedBy(old(table), ws[..i])
        invariant created + updated == old(created) + old(updated) + i
      {
        assert ws[..i + 1] == ws[..i] + [ws[i]] && ws[i] == DebateWrite(items, rows[i]);
        UpsertNext(fold, DebateWrite(items, rows[i]), now, old(table), ws[..i]);
      }
    }
  }

  // ---------------------------------------------------------------- the fate of one row

  function LastSource(ws: seq<Write>, ext: string): Option<string> {
    if ws == [] then None
    else if ws[|ws| - 1].ext == ext && ws[|ws| - 1].sourceUrl.Some? then ws[|ws| - 1].sourceUrl
    else LastSource(ws[..|ws| - 1], ext)
  }

  /** A row a run wrote carries what its last write said, and the last source given, if any. */
  ghost predicate Carries(row: Row, w: Write) {
    row.sessionNumber == w.sessionNumber && row.title == w.title && row.sessionDate == w.sessionDate && row.status == w.status
  }

  lemma {:induction false} RowCarriesLastWrite(fold: Fold, t: Table, ws: seq<Write>, now: int, ext: string)
    ensures var t' := AllUpserted(fold, t, ws, now);
            && (LastFor(ws, ext).None? ==> LastSource(ws, ext).None?)
            && (LastFor(ws, ext).None? && ext in t.rows ==> ext in t'.rows && t'.rows[ext] == t.rows[ext])
            && (LastFor(ws, ext).Some? ==>
                  && ext in t'.rows && Carries(t'.rows[ext], LastFor(ws, ext).value)
                  && t'.rows[ext].sourceUrl ==
                     if LastSource(ws, ext).Some? then LastSource(ws, ext)
                     else if ext in t.rows then t.rows[ext].sourceUrl else None)
  {
    if ws == [] {
    } else {
      var init, last := ws[..|ws| - 1], ws[|ws| - 1];
      RowCarriesLastWrite(fold, t, init, now, ext);
      RowsAfter(fold, t, init, now, ext);
    }
  }

  /** `created` is by how many rows the table grew. */
  lemma {:induction false} CreatedIsGrowth(fold: Fold, t: Table, ws: seq<Write>, now: int)
    ensures |AllUpserted(fold, t, ws, now).rows.Keys| == |t.rows.Keys| + CreatedBy(t, ws)
  {
    if ws == [] {
    } else {
      var init, last := ws[..|ws| - 1], ws[|ws| - 1];
      CreatedIsGrowth(fold, t, init, now);
      RowsAfter(fold, t, init, now, last.ext);
      assert AllUpserted(fold, t, ws, now).rows.Keys == AllUpserted(fold, t, init, now).rows.Keys + {last.ext};
    }
  }

  ghost predicate WrittenTwice(ws: seq<Write>, ext: string) {
    exists i, j :: 0 <= i < j < |ws| && ws[i].ext == ext && ws[j].ext == ext
  }

  ghost predicate WrittenOnce(ws: seq<Write>, ext: string) { exists w :: w in ws && w.ext == ext }

  lemma WrittenTwiceStep(ws: seq<Write>, ext: string)
    requires ws != []
    ensures var init, last := ws[..|ws| - 1], ws[|ws| - 1];
            WrittenTwice(ws, ext) <==> WrittenTwice(init, ext) || (last.ext == ext && WrittenOnce(init, ext))
  {
    var init, n := ws[..|ws| - 1], |ws| - 1;
    if i, j :| 0 <= i < j < |ws| && ws[i].ext == ext && ws[j].ext == ext {
      assert init[i] in init;
      if j < n { assert init[i].ext == ext && init[j].ext == ext; }
    }
    if i, j :| 0 <= i < j < n && init[i].ext == ext && init[j].ext == ext { assert ws[i].ext == ext && ws[j].ext == ext; }
    if w :| w in init && w.ext == ext {
      var i :| 0 <= i < n && init[i] == w;
      assert ws[n].ext == ext ==> ws[i].ext == ext && ws[n].ext == ext;
    }
  }

  /** `updated_at` is the moment of the run on a row that it updated, and NULL on a row that it only inserted. */
  lemma {:induction false} UpdatedAtIs(fold: Fold, t: Table, ws: seq<Write>, now: int, ext: string)
    requires LastFor(ws, ext).Some?
    ensures var after := AllUpserted(fold, t, ws, now).rows;
            ext in after && after[ext].updatedAt == if ext in t.rows || WrittenTwice(ws, ext) then Some(now) else None
  {
    var init, last := ws[..|ws| - 1], ws[|ws| - 1];
    RowsAfter(fold, t, init, now, ext);
    WrittenTwiceStep(ws, ext);
    if last.ext == ext {
      assert WrittenOnce(init, ext) ==> ext in AllUpserted(fold, t, init, now).rows;
      assert WrittenTwice(init, ext) ==> WrittenOnce(init, ext) by {
        if i, j :| 0 <= i < j < |init| && init[i].ext == ext && init[j].ext == ext { assert init[i] in init; }
      }
    } else {
      UpdatedAtIs(fold, t, init, now, ext);
    }
  }

  /** Equal but for `updated_at`. */
  ghost predicate SameDebates(t: Table, t': Table) {
    t.rows.Keys == t'.rows.Keys && forall e :: e in t.rows ==> t.rows[e].(updatedAt := None) == t'.rows[e].(updatedAt := None)
  }

  lemma {:induction false} KnownCreateNothing(t: Table, ws: seq<Write>)
    requires forall w :: w in ws ==> w.ext in t.rows
    ensures CreatedBy(t, ws) == 0
  {
    if ws == [] {
    } else {
      assert ws[|ws| - 1] in ws && forall w :: w in ws[..|ws| - 1] ==> w in ws;
      KnownCreateNothing(t, ws[..|ws| - 1]);
    }
  }

  /** Each row is last written alike, and last given one source page. */
  ghost predicate SameLastWrites(ws: seq<Write>, ws': seq<Write>) {
    forall ext :: LastFor(ws, ext) == LastFor(ws', ext) && LastSource(ws, ext) == LastSource(ws', ext)
  }

  /** A run of upserts that says in the end what the first said is idle. */
  lemma RunAgain(fold: Fold, t: Table, ws: seq<Write>, ws': seq<Write>, now1: int, now2: int)
    requires SameLastWrites(ws, ws')
    ensures var once := AllUpserted(fold, t, ws, now1);
            SameDebates(once, AllUpserted(fold, once, ws', now2))
    ensures CreatedBy(AllUpserted(fold, t, ws, now1), ws') == 0
  {
    var once := AllUpserted(fold, t, ws, now1);
    var twice := AllUpserted(fold, once, ws', now2);
    forall e ensures e in once.rows <==> e in twice.rows {
      RowsAfter(fold, t, ws, now1, e);
      RowsAfter(fold, once, ws', now2, e);
    }
    forall e | e in once.rows ensures once.rows[e].(updatedAt := None) == twice.rows[e].(updatedAt := None) {
      RowsAfter(fold, once, ws', now2, e);
      RowCarriesLastWrite(fold, t, ws, now1, e);
      RowCarriesLastWrite(fold, once, ws', now2, e);
    }
    forall w | w in ws' ensures w.ext in once.rows {
      RowsAfter(fold, t, ws', now1, w.ext);
      RowsAfter(fold, t, ws, now1, w.ext);
    }
    KnownCreateNothing(once, ws');
  }

  /** Any run of upserts, done twice, is as good as done once. */
  lemma RunTwiceIsOnce(fold: Fold, t: Table, ws: seq<Write>, now1: int, now2: int)
    ensures var once := AllUpserted(fold, t, ws, now1);
            SameDebates(once, AllUpserted(fold, once, ws, now2))
    ensures CreatedBy(AllUpserted(fold, t, ws, now1), ws) == 0
  {
    RunAgain(fold, t, ws, ws, now1, now2);
  }

  lemma {:induction false} UpsertAppend(fold: Fold, t: Table, a: seq<Write>, b: seq<Write>, now: int)
    ensures AllUpserted(fold, t, a + b, now) == AllUpserted(fold, AllUpserted(fold, t, a, now), b, now)
  {
    if b == [] {
      assert a + b == a;
    } else {
      assert (a + b)[..|a + b| - 1] == a + b[..|b| - 1];
      UpsertAppend(fold, t, a, b[..|b| - 1], now);
    }
  }

  function BothWrites(items: seq<AgendaItem>, crs: seq<CompteRendu>, legislature: int, now: int): seq<Write> {
    AgendaWrites(items, legislature, now) + DebateWrites(items, crs, legislature)
  }

  /**
   Agenda then comptes rendus, twice over the same raw data at the same `now`, is
   the same as once: although the agenda first overwrites what the comptes rendus wrote,
   they write it back, and ids, slugs and source pages never move.
   */
  lemma AgendaThenDebatesIsIdempotent(fold: Fold, t: Table, items: seq<AgendaItem>, crs: seq<CompteRendu>, legislature: int, now: int)
    ensures
      var agenda, debates := AgendaWrites(items, legislature, now), DebateWrites(items, crs, legislature);
      var once := AllUpserted(fold, AllUpserted(fold, t, agenda, now), debates, now);
      var twice := AllUpserted(fold, AllUpserted(fold, once, agenda, now), debates, now);
      && SameDebates(once, twice)
      && CreatedBy(once, agenda) == 0 && CreatedBy(AllUpserted(fold, once, agenda, now), debates) == 0
  {
    var agenda, debates := AgendaWrites(items, legislature, now), DebateWrites(items, crs, legislature);
    var both := BothWrites(items, crs, legislature, now);
    UpsertAppend(fold, t, agenda, debates, now);
    var once := AllUpserted(fold, t, both, now);
    UpsertAppend(fold, once, agenda, debates, now);
    RunTwiceIsOnce(fold, t, both, now, now);
    forall w | w in both ensures w.ext in once.rows { RowsAfter(fold, t, both, now, w.ext); }
    KnownCreateNothing(once, agenda);
    forall w | w in debates ensures w.ext in AllUpserted(fold, once, agenda, now).rows {
      assert w in both;
      RowsAfter(fold, once, agenda, now, w.ext);
    }
    KnownCreateNothing(AllUpserted(fold, once, agenda, now), debates);
  }

  // ---------------------------------------------------------------- which row a compte rendu enriches

  lemma AgendaOfIs(items: seq<AgendaItem>, cr: CompteRendu)
    ensures var found := AgendaOf(items, cr);
            && (found.None? <==> forall i :: i in items ==> i.compteRendu != Some(cr.uid))
            && (found.Some? ==> found.value in items && found.value.compteRendu == Some(cr.uid))
            && (found.Some? ==> forall i :: i in items && i.compteRendu == Some(cr.uid) ==> ByConfirmedThenStart()(found.value, i))
  {
    var le := ByConfirmedThenStart();
    var kept := Filter((i: AgendaItem) => i.compteRendu == Some(cr.uid), items);
    var found := Sort(kept, le);
    SortKeeps(kept, le);
    SortSorts(kept, le);
    forall i: AgendaItem ensures i in found <==> i in items && i.compteRendu == Some(cr.uid) { SortMembers(kept, le, i); }
    if found == [] {
      forall i | i in items ensures i.compteRendu != Some(cr.uid) { assert i !in found; }
    } else {
      assert found[0] in found;
      forall i | i in items && i.compteRendu == Some(cr.uid) ensures le(found[0], i) {
        assert i in found;
        var k :| 0 <= k < |found| && found[k] == i;
        assert k > 0 ==> le(found[0], found[k]);
      }
    }
  }

  predicate IsConfirmed(i: AgendaItem) { i.state.Some? && i.state.value != CANCELLED }

  predicate IsCancelled(i: AgendaItem) { i.state == Some(CANCELLED) }

  /**
   A compte rendu belongs to the earliest confirmed item that references it; without a confirmed
   one to the earliest cancelled one, and only then to one without a state.
   */
  lemma EarliestConfirmedIsFound(items: seq<AgendaItem>, cr: CompteRendu, i: AgendaItem)
    requires i in items && i.compteRendu == Some(cr.uid)
    ensures var found := AgendaOf(items, cr);
            && found.Some? && found.value in items && found.value.compteRendu == Some(cr.uid)
            && (IsConfirmed(i) ==> IsConfirmed(found.value) && found.value.startAt <= i.startAt)
            && (IsCancelled(i) ==> IsConfirmed(found.value) || (IsCancelled(found.value) && found.value.startAt <= i.startAt))
            && (i.state.None? ==> found.value.state.Some? || found.value.startAt <= i.startAt)
  {
    AgendaOfIs(items, cr);
  }

  /** The row a compte rendu enriches: that of its agenda item, its own when there is none or it has no uid. */
  lemma TargetIs(items: seq<AgendaItem>, cr: CompteRendu)
    ensures var found := AgendaOf(items, cr);
            && (found.None? || found.value.uid == "" ==> Target(items, cr) == cr.uid)
            && (found.Some? && found.value.uid != "" ==> Target(items, cr) == found.value.uid)
  {
  }

  /** The rows of a run are the items of the legislature, each as often as listed, in that same order. */
  lemma AgendaRowsAre(items: seq<AgendaItem>, legislature: int, i: nat, j: nat)
    requires i < j < |AgendaRows(items, legislature)|
    ensures var x, y := AgendaRows(items, legislature)[i], AgendaRows(items, legislature)[j];
            && x in items && x.legislature == legislature
            && (IsConfirmed(y) ==> IsConfirmed(x) && x.startAt <= y.startAt)
            && (IsCancelled(y) ==> IsConfirmed(x) || (IsCancelled(x) && x.startAt <= y.startAt))
            && (y.state.None? ==> x.state.Some? || x.startAt <= y.startAt)
  {
    var kept := Filter((a: AgendaItem) => a.legislature == legislature, items);
    var rows := AgendaRows(items, legislature);
    SortSorts(kept, ByConfirmedThenStart());
    assert rows[i] in rows;
    SortMembers(kept, ByConfirmedThenStart(), rows[i]);
  }

  /** Comptes rendus are projected by date, so the latest of those on one row is the last to write it. */
  lemma CompteRenduRowsAre(crs: seq<CompteRendu>, legislature: int, i: nat, j: nat)
    requires i < j < |CompteRenduRows(crs, legislature)|
    ensures var rows := CompteRenduRows(crs, legislature);
            rows[i] in crs && rows[i].legislature == legislature && rows[i].date <= rows[j].date
  {
    var le := (x: CompteRendu, y: CompteRendu) => x.date <= y.date;
    var kept := Filter((c: CompteRendu) => c.legislature == legislature, crs);
    var rows := CompteRenduRows(crs, legislature);
    SortSorts(kept, le);
    assert rows[i] in rows;
    SortMembers(kept, le, rows[i]);
    assert le(rows[i], rows[j]);
  }

  /** Agenda uids are not compte rendu uids, and none is empty. */
  ghost predicate DisjointUids(items: seq<AgendaItem>, crs: seq<CompteRendu>) {
    forall i, c :: i in items && c in crs ==> i.uid != c.uid && i.uid != ""
  }

  /** Agenda uids are unique, as in the raw table. */
  ghost predicate UniqueItems(items: seq<AgendaItem>) {
    forall i, j :: i in items && j in items && i.uid == j.uid ==> i == j
  }

  /** No two comptes rendus enrich the same row. */
  lemma TargetsAreDistinct(items: seq<AgendaItem>, crs: seq<CompteRendu>, c: CompteRendu, d: CompteRendu)
    requires DisjointUids(items, crs) && UniqueItems(items)
    requires c in crs && d in crs && Target(items, c) == Target(items, d)
    ensures c.uid == d.uid
  {
    AgendaOfIs(items, c);
    AgendaOfIs(items, d);
  }

  lemma {:induction false} LastForIs(ws: seq<Write>, w: Write)
    requires w in ws && forall v :: v in ws && v.ext == w.ext ==> v == w
    ensures LastFor(ws, w.ext) == Some(w)
  {
    var init, last := ws[..|ws| - 1], ws[|ws| - 1];
    assert last in ws && forall v :: v in ws <==> v in init || v == last;
    if last.ext != w.ext { LastForIs(init, w); }
  }

  lemma {:induction false} LastForAppend(a: seq<Write>, b: seq<Write>, ext: string)
    ensures LastFor(a + b, ext) == if LastFor(b, ext).Some? then LastFor(b, ext) else LastFor(a, ext)
    ensures LastFor(b, ext).Some? ==> LastFor(b, ext).value in b && LastFor(b, ext).value.ext == ext
  {
    if b == [] {
      assert a + b == a;
    } else {
      var init := b[..|b| - 1];
      assert (a + b)[..|a + b| - 1] == a + init;
      LastForAppend(a, init, ext);
      assert forall v :: v in init ==> v in b;
      assert b[|b| - 1] in b;
    }
  }

  lemma DebateWriteIsThere(items: seq<AgendaItem>, crs: seq<CompteRendu>, legislature: int, w: Write)
    ensures w in DebateWrites(items, crs, legislature) <==>
              exists c :: c in crs && c.legislature == legislature && w == DebateWrite(items, c)
  {
    var le := (x: CompteRendu, y: CompteRendu) => x.date <= y.date;
    var kept := Filter((c: CompteRendu) => c.legislature == legislature, crs);
    var rows := CompteRenduRows(crs, legislature);
    forall c: CompteRendu ensures c in rows <==> c in crs && c.legislature == legislature { SortMembers(kept, le, c); }
    if w in DebateWrites(items, crs, legislature) {
      var k :| 0 <= k < |rows| && DebateWrites(items, crs, legislature)[k] == w;
      assert rows[k] in rows;
    }
    if c :| c in crs && c.legislature == legislature && w == DebateWrite(items, c) {
      assert c in rows;
      var k :| 0 <= k < |rows| && rows[k] == c;
      assert DebateWrites(items, crs, legislature)[k] == w;
    }
  }

  /** After both projections the row of every compte rendu is completed, whatever the uids. */
  lemma EnrichedRowsAreCompleted(fold: Fold, t: Table, items: seq<AgendaItem>, crs: seq<CompteRendu>, legislature: int, now: int, c: CompteRendu)
    requires c in crs && c.legislature == legislature
    ensures var after := AllUpserted(fold, t, BothWrites(items, crs, legislature, now), now);
            Target(items, c) in after.rows && after.rows[Target(items, c)].status == Completed
  {
    var debates := DebateWrites(items, crs, legislature);
    var ext := Target(items, c);
    DebateWriteIsThere(items, crs, legislature, DebateWrite(items, c));
    RowsAfter(fold, t, debates, now, ext);
    LastForAppend(AgendaWrites(items, legislature, now), debates, ext);
    RowCarriesLastWrite(fold, t, BothWrites(items, crs, legislature, now), now, ext);
    DebateWriteIsThere(items, crs, legislature, LastFor(debates, ext).value);
  }

  /** The row of a compte rendu: completed, with its title, number (0 when missing), date and page. */
  ghost predicate ShowsCompteRendu(row: Row, c: CompteRendu) {
    && row.title == c.title && row.sessionDate == c.date && row.status == Completed && row.sourceUrl == Some(c.sourceUrl)
    && (c.sessionNumber == Some(row.sessionNumber) || (c.sessionNumber.None? && row.sessionNumber == 0))
  }

  lemma AgendaWriteIsThere(items: seq<AgendaItem>, legislature: int, now: int, w: Write)
    ensures w in AgendaWrites(items, legislature, now) <==>
              exists i :: i in items && i.legislature == legislature && w == AgendaWrite(i, now)
  {
    var kept := Filter((i: AgendaItem) => i.legislature == legislature, items);
    var rows, ws := AgendaRows(items, legislature), AgendaWrites(items, legislature, now);
    forall i: AgendaItem ensures i in rows <==> i in items && i.legislature == legislature { SortMembers(kept, ByConfirmedThenStart(), i); }
    if w in ws {
      var k :| 0 <= k < |ws| && ws[k] == w;
      assert rows[k] in rows;
    }
    if i :| i in items && i.legislature == legislature && w == AgendaWrite(i, now) {
      assert i in rows;
      var k :| 0 <= k < |rows| && rows[k] == i;
      assert ws[k] == w;
    }
  }

  lemma {:induction false} NoSource(ws: seq<Write>, ext: string)
    requires forall w :: w in ws ==> w.sourceUrl.None?
    ensures LastSource(ws, ext).None?
  {
    if ws == [] {
    } else {
      assert ws[|ws| - 1] in ws && forall w :: w in ws[..|ws| - 1] ==> w in ws;
      NoSource(ws[..|ws| - 1], ext);
    }
  }

  lemma {:induction false} EachSource(a: seq<Write>, b: seq<Write>, ext: string)
    requires LastSource(a, ext).None? && forall w :: w in b ==> w.sourceUrl.Some?
    ensures LastSource(a + b, ext) == if LastFor(b, ext).Some? then LastFor(b, ext).value.sourceUrl else None
  {
    if b == [] {
      assert a + b == a;
    } else {
      assert (a + b)[..|a + b| - 1] == a + b[..|b| - 1];
      assert b[|b| - 1] in b && forall w :: w in b[..|b| - 1] ==> w in b;
      EachSource(a, b[..|b| - 1], ext);
    }
  }

  /** Only comptes rendus give a source page: the last one of the row decides. */
  lemma SourceIsLastCompteRendu(items: seq<AgendaItem>, crs: seq<CompteRendu>, legislature: int, now: int, ext: string)
    ensures var last := LastFor(DebateWrites(items, crs, legislature), ext);
            LastSource(BothWrites(items, crs, legislature, now), ext) == if last.Some? then last.value.sourceUrl else None
  {
    var agenda, debates := AgendaWrites(items, legislature, now), DebateWrites(items, crs, legislature);
    forall w | w in agenda ensures w.sourceUrl.None? { AgendaWriteIsThere(items, legislature, now, w); }
    NoSource(agenda, ext);
    forall w | w in debates ensures w.sourceUrl.Some? { DebateWriteIsThere(items, crs, legislature, w); }
    EachSource(agenda, debates, ext);
  }

  /** With disjoint uids that row is the compte rendu's own: it carries its date, title and number. */
  lemma EnrichedRowsCarryTheirCompteRendu(fold: Fold, t: Table, items: seq<AgendaItem>, crs: seq<CompteRendu>, legislature: int, now: int, c: CompteRendu)
    requires DisjointUids(items, crs) && UniqueItems(items)
    requires c in crs && c.legislature == legislature && forall d :: d in crs && d.uid == c.uid ==> d == c
    ensures var after := AllUpserted(fold, t, BothWrites(items, crs, legislature, now), now);
            Target(items, c) in after.rows && ShowsCompteRendu(after.rows[Target(items, c)], c)
  {
    var debates := DebateWrites(items, crs, legislature);
    var w := DebateWrite(items, c);
    DebateWriteIsThere(items, crs, legislature, w);
    forall v | v in debates && v.ext == w.ext ensures v == w {
      DebateWriteIsThere(items, crs, legislature, v);
      var d :| d in crs && d.legislature == legislature && v == DebateWrite(items, d);
      TargetsAreDistinct(items, crs, c, d);
    }
    LastForIs(debates, w);
    LastForAppend(AgendaWrites(items, legislature, now), debates, w.ext);
    RowCarriesLastWrite(fold, t, BothWrites(items, crs, legislature, now), now, w.ext);
    SourceIsLastCompteRendu(items, crs, legislature, now, w.ext);
  }

  /** The row of a sitting after the agenda run: its title, number (0 when missing), start and status. */
  ghost predicate ShowsSitting(row: Row, item: AgendaItem, now: int) {
    && row.title == Some(item.title) && row.sessionDate == item.startAt && row.status == CalendarStatus(item, now)
    && (item.sessionNumber == Some(row.sessionNumber) || (item.sessionNumber.None? && row.sessionNumber == 0))
  }

  lemma SittingIsShown(fold: Fold, t: Table, items: seq<AgendaItem>, legislature: int, now: int, item: AgendaItem)
    requires UniqueItems(items) && item in items && item.legislature == legislature
    ensures var after := AllUpserted(fold, t, AgendaWrites(items, legislature, now), now);
            item.uid in after.rows && ShowsSitting(after.rows[item.uid], item, now)
  {
    var ws, w := AgendaWrites(items, legislature, now), AgendaWrite(item, now);
    AgendaWriteIsThere(items, legislature, now, w);
    forall v | v in ws && v.ext == w.ext ensures v == w { AgendaWriteIsThere(items, legislature, now, v); }
    LastForIs(ws, w);
    RowCarriesLastWrite(fold, t, ws, now, item.uid);
  }

  // ---------------------------------------------------------------- ties of the two orders

  /** Referencing items that none precedes. */
  ghost predicate ComesFirst(items: seq<AgendaItem>, c: CompteRendu, i: AgendaItem) {
    && i in items && i.compteRendu == Some(c.uid)
    && forall j :: j in items && j.compteRendu == Some(c.uid) ==> ByConfirmedThenStart()(i, j)
  }

  ghost predicate OneComesFirst(items: seq<AgendaItem>, c: CompteRendu) {
    forall i, j :: ComesFirst(items, c, i) && ComesFirst(items, c, j) ==> i.uid == j.uid
  }

  /** An item that none precedes is the one found when the table lists it first. */
  lemma ListedFirstIsFound(items: seq<AgendaItem>, c: CompteRendu, i: AgendaItem) returns (other: seq<AgendaItem>)
    requires ComesFirst(items, c, i)
    ensures Permuted(items, other) && AgendaOf(other, c) == Some(i)
  {
    var keep := (i: AgendaItem) => i.compteRendu == Some(c.uid);
    var k :| 0 <= k < |items| && items[k] == i;
    var rest := items[..k] + items[k + 1..];
    other := [i] + rest;
    TakenOut(items, k);
    PermutedMembers(items, other);
    var kept := Filter(keep, rest);
    assert other[1..] == rest;
    assert Filter(keep, other) == [i] + kept && ([i] + kept)[1..] == kept;
    var sorted := Sort(kept, ByConfirmedThenStart());
    if sorted != [] {
      SortMembers(kept, ByConfirmedThenStart(), sorted[0]);
      assert sorted[0] in rest && sorted[0] in other;
    }
  }

  /** The row a compte rendu enriches does not depend on the listing of the agenda iff one referencing item comes first. */
  lemma TargetAnyOrderIff(items: seq<AgendaItem>, c: CompteRendu)
    requires forall i :: i in items ==> i.uid != ""
    ensures (forall other :: Permuted(items, other) ==> Target(other, c) == Target(items, c)) <==> OneComesFirst(items, c)
  {
    AgendaOfIs(items, c);
    if OneComesFirst(items, c) {
      forall other | Permuted(items, other) ensures Target(other, c) == Target(items, c) {
        PermutedMembers(items, other);
        AgendaOfIs(other, c);
        if AgendaOf(items, c).Some? { assert ComesFirst(items, c, AgendaOf(other, c).value) && ComesFirst(items, c, AgendaOf(items, c).value); }
      }
    } else {
      var i, j :| ComesFirst(items, c, i) && ComesFirst(items, c, j) && i.uid != j.uid;
      var a := ListedFirstIsFound(items, c, i);
      var b := ListedFirstIsFound(items, c, j);
    }
  }

  ghost predicate OnePerRow(ws: seq<Write>) { forall v, w :: v in ws && w in ws && v.ext == w.ext ==> v == w }

  lemma SameLastFor(ws: seq<Write>, ws': seq<Write>, ext: string)
    requires OnePerRow(ws) && forall w :: w in ws <==> w in ws'
    ensures LastFor(ws, ext) == LastFor(ws', ext)
  {
    LastForAppend([], ws, ext);
    LastForAppend([], ws', ext);
    if w :| w in ws && w.ext == ext {
      LastForIs(ws, w);
      LastForIs(ws', w);
    }
  }

  ghost predicate UniqueComptesRendus(crs: seq<CompteRendu>) {
    forall c, d :: c in crs && d in crs && c.uid == d.uid ==> c == d
  }

  /** The uids of the raw tables, and one first item for every compte rendu. */
  ghost predicate SettledSittings(items: seq<AgendaItem>, crs: seq<CompteRendu>) {
    && UniqueItems(items) && UniqueComptesRendus(crs) && DisjointUids(items, crs)
    && forall c :: c in crs ==> OneComesFirst(items, c)
  }

  lemma SameDebateWrites(items: seq<AgendaItem>, crs: seq<CompteRendu>, items': seq<AgendaItem>, crs': seq<CompteRendu>, legislature: int)
    requires SettledSittings(items, crs) && Permuted(items, items') && Permuted(crs, crs')
    ensures OnePerRow(DebateWrites(items, crs, legislature))
    ensures forall w :: w in DebateWrites(items, crs, legislature) <==> w in DebateWrites(items', crs', legislature)
  {
    var debates := DebateWrites(items, crs, legislature);
    PermutedMembers(crs, crs');
    forall c | c in crs ensures DebateWrite(items', c) == DebateWrite(items, c) { TargetAnyOrderIff(items, c); }
    forall w ensures w in debates <==> w in DebateWrites(items', crs', legislature) {
      DebateWriteIsThere(items, crs, legislature, w);
      DebateWriteIsThere(items', crs', legislature, w);
    }
    forall v, w | v in debates && w in debates && v.ext == w.ext ensures v == w {
      DebateWriteIsThere(items, crs, legislature, v);
      DebateWriteIsThere(items, crs, legislature, w);
      var c :| c in crs && c.legislature == legislature && v == DebateWrite(items, c);
      var d :| d in crs && d.legislature == legislature && w == DebateWrite(items, d);
      TargetsAreDistinct(items, crs, c, d);
    }
  }

  lemma SameAgendaWrites(items: seq<AgendaItem>, items': seq<AgendaItem>, legislature: int, now: int)
    requires UniqueItems(items) && Permuted(items, items')
    ensures OnePerRow(AgendaWrites(items, legislature, now))
    ensures forall w :: w in AgendaWrites(items, legislature, now) <==> w in AgendaWrites(items', legislature, now)
  {
    PermutedMembers(items, items');
    forall w ensures w in AgendaWrites(items, legislature, now) <==> w in AgendaWrites(items', legislature, now) {
      AgendaWriteIsThere(items, legislature, now, w);
      AgendaWriteIsThere(items', legislature, now, w);
    }
    forall v, w | v in AgendaWrites(items, legislature, now) && w in AgendaWrites(items, legislature, now) && v.ext == w.ext ensures v == w {
      AgendaWriteIsThere(items, legislature, now, v);
      AgendaWriteIsThere(items, legislature, now, w);
    }
  }

  /** Whatever order the tables give the rows that compare equal, the two projections say the same in the end. */
  lemma RelistedSittingsSayTheSame(items: seq<AgendaItem>, crs: seq<CompteRendu>, items': seq<AgendaItem>, crs': seq<CompteRendu>,
                                   legislature: int, now: int)
    requires SettledSittings(items, crs) && Permuted(items, items') && Permuted(crs, crs')
    ensures SameLastWrites(BothWrites(items, crs, legislature, now), BothWrites(items', crs', legislature, now))
  {
    var agenda, debates := AgendaWrites(items, legislature, now), DebateWrites(items, crs, legislature);
    var agenda', debates' := AgendaWrites(items', legislature, now), DebateWrites(items', crs', legislature);
    SameAgendaWrites(items, items', legislature, now);
    SameDebateWrites(items, crs, items', crs', legislature);
    forall ext
      ensures LastFor(agenda + debates, ext) == LastFor(agenda' + debates', ext)
           && LastSource(agenda + debates, ext) == LastSource(agenda' + debates', ext)
    {
      SameLastFor(agenda, agenda', ext);
      SameLastFor(debates, debates', ext);
      LastForAppend(agenda, debates, ext);
      LastForAppend(agenda', debates', ext);
      SourceIsLastCompteRendu(items, crs, legislature, now, ext);
      SourceIsLastCompteRendu(items', crs', legislature, now, ext);
    }
  }

  // ---------------------------------------------------------------- slugs along the runs

  function Requests(ws: seq<Write>): seq<Request> {
    seq(|ws|, i requires 0 <= i < |ws| => Request(ws[i].ext, ws[i].slug))
  }

  lemma UpsertAsksForASlug(fold: Fold, t: Table, w: Write, now: int)
    ensures SlugsOf(Upserted(fold, t, w, now)) == Asked(fold, SlugsOf(t), Request(w.ext, w.slug))
  {
    var t' := Upserted(fold, t, w, now);
    forall e | e in t'.rows
      ensures e in Asked(fold, SlugsOf(t), Request(w.ext, w.slug))
           && t'.rows[e].slug == Asked(fold, SlugsOf(t), Request(w.ext, w.slug))[e]
    { }
    assert SlugsOf(t').Keys == Asked(fold, SlugsOf(t), Request(w.ext, w.slug)).Keys;
  }

  /** On slugs, the projections do exactly what the write-once table does: its laws hold for them. */
  lemma {:induction false} SlugsFollowTheWriteOnceTable(fold: Fold, t: Table, ws: seq<Write>, now: int)
    ensures SlugsOf(AllUpserted(fold, t, ws, now)) == AllAsked(fold, SlugsOf(t), Requests(ws))
  {
    if ws == [] {
    } else {
      var init, last := ws[..|ws| - 1], ws[|ws| - 1];
      SlugsFollowTheWriteOnceTable(fold, t, init, now);
      UpsertAsksForASlug(fold, AllUpserted(fold, t, init, now), last, now);
      assert Requests(ws)[..|ws| - 1] == Requests(init);
    }
  }

  /** Agenda uids are unique in the raw table, so no run asks twice for one row. */
  ghost predicate DistinctRequests(rs: seq<Request>) {
    forall k, l :: 0 <= k < l < |rs| ==> rs[k].ext != rs[l].ext
  }

  /** Confirmed sittings first, then cancelled ones, then those without a state. */
  lemma LowerRankComesFirst(items: seq<AgendaItem>, legislature: int, c: AgendaItem, x: AgendaItem) returns (i: nat, j: nat)
    requires c in items && x in items && c.legislature == legislature && x.legislature == legislature
    requires CancelRank(c.state) < CancelRank(x.state)
    ensures i < j < |AgendaRows(items, legislature)| && AgendaRows(items, legislature)[i] == c && AgendaRows(items, legislature)[j] == x
  {
    var kept := Filter((a: AgendaItem) => a.legislature == legislature, items);
    var le := ByConfirmedThenStart();
    SortSorts(kept, le);
    SortMembers(kept, le, c);
    SortMembers(kept, le, x);
    var rows := AgendaRows(items, legislature);
    i :| 0 <= i < |rows| && rows[i] == c;
    j :| 0 <= j < |rows| && rows[j] == x;
    assert !le(rows[j], rows[i]);
  }

  /** Two new sittings of the legislature that would share a slug. */
  ghost predicate NewTwins(t: Table, items: seq<AgendaItem>, legislature: int, now: int, c: AgendaItem, x: AgendaItem) {
    && c in items && x in items && c.legislature == legislature && x.legislature == legislature && c.slug == x.slug
    && c.uid !in t.rows && x.uid !in t.rows && DistinctRequests(Requests(AgendaWrites(items, legislature, now)))
  }

  lemma HigherRankedTwinIsSuffixed(fold: Fold, t: Table, items: seq<AgendaItem>, legislature: int, now: int, c: AgendaItem, x: AgendaItem)
    requires NewTwins(t, items, legislature, now, c, x) && CancelRank(c.state) < CancelRank(x.state)
    ensures var after := AllUpserted(fold, t, AgendaWrites(items, legislature, now), now);
            x.uid in after.rows && after.rows[x.uid].slug == Suffixed(fold, x.slug, x.uid)
  {
    var ws := AgendaWrites(items, legislature, now);
    var i, j := LowerRankComesFirst(items, legislature, c, x);
    LaterRequestIsSuffixed(fold, SlugsOf(t), Requests(ws), i, j);
    SlugsFollowTheWriteOnceTable(fold, t, ws, now);
    var after := AllUpserted(fold, t, ws, now);
    assert x.uid in SlugsOf(after) && SlugsOf(after)[x.uid] == after.rows[x.uid].slug;
  }

  /**
   The purpose of the agenda's order: when a confirmed sitting and a cancelled twin with the
   same slug are both new, the cancelled one is the one that gets its uid appended.
   */
  lemma CancelledTwinIsSuffixed(fold: Fold, t: Table, items: seq<AgendaItem>, legislature: int, now: int, c: AgendaItem, x: AgendaItem)
    requires NewTwins(t, items, legislature, now, c, x)
    requires c.state.Some? && c.state != Some(CANCELLED) && x.state == Some(CANCELLED)
    ensures var after := AllUpserted(fold, t, AgendaWrites(items, legislature, now), now);
            x.uid in after.rows && after.rows[x.uid].slug == Suffixed(fold, x.slug, x.uid)
  {
    HigherRankedTwinIsSuffixed(fold, t, items, legislature, now, c, x);
  }

  /** NULL sorts last: a sitting without a state loses the slug even to a cancelled twin. */
  lemma StatelessTwinIsSuffixed(fold: Fold, t: Table, items: seq<AgendaItem>, legislature: int, now: int, c: AgendaItem, x: AgendaItem)
    requires NewTwins(t, items, legislature, now, c, x)
    requires c.state == Some(CANCELLED) && x.state.None?
    ensures var after := AllUpserted(fold, t, AgendaWrites(items, legislature, now), now);
            x.uid in after.rows && after.rows[x.uid].slug == Suffixed(fold, x.slug, x.uid)
  {
    HigherRankedTwinIsSuffixed(fold, t, items, legislature, now, c, x);
  }
}

/** public.law_text: versions grouped by dossier, sorted along the navette, numbered and upserted. */
module LawTextProjection {
  import opened Prelude
  import opened Sorting
  import opened VersionOrder

  /** A row of raw.law_text; the legislature is that of the run that collected it. */
  datatype RawText = RawText(dossier: Option<string>, legislature: int, available: bool, version: Version)

  /** A reading may be known and absent from public. */
  datatype Lookups = Lookups(
    laws: map<string, int>, readings: map<(Option<string>, string), Option<int>>, numbers: map<string, Option<int>>)

  datatype TextRow = TextRow(
    id: nat, lawId: int, readingId: Option<int>, kind: Kind, number: Option<int>, position: int, sourceUrl: string)

  datatype Write = Write(
    uid: string, lawId: int, readingId: Option<int>, kind: Kind, number: Option<int>, position: int, sourceUrl: string)

  datatype State = State(rows: map<string, TextRow>, nextId: nat, processed: nat, created: nat, updated: nat, skipped: nat)

  // ---------------------------------------------------------------- specification

  /** The dossier has a public law. */
  predicate Known(l: Lookups, d: Option<string>) { d.Some? && d.value in l.laws }

  predicate Wanted(t: RawText, legislature: int) { t.legislature == legislature && t.available }

  /** WHERE legislature = ... AND available; the table is listed by dossier, then by uid. */
  function Selected(raw: seq<RawText>, legislature: int): (r: seq<RawText>)
    ensures forall t :: t in r <==> t in raw && Wanted(t, legislature)
  {
    if raw == [] then []
    else
      var before, t := Selected(raw[..|raw| - 1], legislature), raw[|raw| - 1];
      assert forall x :: x in raw <==> x in raw[..|raw| - 1] || x == t;
      if Wanted(t, legislature) then before + [t] else before
  }

  /** The dossiers of a list of texts, by first appearance. */
  function Dossiers(texts: seq<RawText>): seq<Option<string>> {
    if texts == [] then []
    else
      var before, d := Dossiers(texts[..|texts| - 1]), texts[|texts| - 1].dossier;
      if d in before then before else before + [d]
  }

  function Members(texts: seq<RawText>, d: Option<string>): seq<Version> {
    if texts == [] then []
    else
      var before, t := Members(texts[..|texts| - 1], d), texts[|texts| - 1];
      if t.dossier == d then before + [t.version] else before
  }

  function WriteOf(v: Version, d: Option<string>, position: int, l: Lookups): Write
    requires Known(l, d)
  {
    Write(v.uid, l.laws[d.value], if (d, v.uid) in l.readings then l.readings[(d, v.uid)] else None, v.kind,
          if v.uid in l.numbers then l.numbers[v.uid] else None, position, v.sourceUrl)
  }

  /** The rows of one dossier, in the order and with the positions of the navette. */
  function DossierWrites(versions: seq<Version>, d: Option<string>, l: Lookups): seq<Write>
    requires Known(l, d)
  {
    var sorted := Sort(versions, KeyLe());
    seq(|sorted|, k requires 0 <= k < |sorted| => WriteOf(sorted[k], d, k + 1, l))
  }

  function Upserted(st: State, w: Write): State {
    var known := w.uid in st.rows;
    var id := if known then st.rows[w.uid].id else st.nextId;
    State(st.rows[w.uid := TextRow(id, w.lawId, w.readingId, w.kind, w.number, w.position, w.sourceUrl)], st.nextId + 1,
          st.processed + 1, if known then st.created else st.created + 1, if known then st.updated + 1 else st.updated,
          st.skipped)
  }

  function AllUpserted(st: State, ws: seq<Write>): State {
    if ws == [] then st else Upserted(AllUpserted(st, ws[..|ws| - 1]), ws[|ws| - 1])
  }

  function DossierProjected(st: State, texts: seq<RawText>, d: Option<string>, l: Lookups): State {
    if !Known(l, d) then st.(skipped := st.skipped + |Members(texts, d)|)
    else AllUpserted(st, DossierWrites(Members(texts, d), d, l))
  }

  function AllProjected(st: State, texts: seq<RawText>, ds: seq<Option<string>>, l: Lookups): State {
    if ds == [] then st else DossierProjected(AllProjected(st, texts, ds[..|ds| - 1], l), texts, ds[|ds| - 1], l)
  }

  /** A whole run over the table. */
  function RunOver(st: State, raw: seq<RawText>, legislature: int, l: Lookups): State {
    var texts := Selected(raw, legislature);
    AllProjected(st, texts, Dossiers(texts), l)
  }

  // ---------------------------------------------------------------- the projection

  class LawTexts {
    var state: State

    constructor (initial: State)
      ensures state == initial
    {
      state := initial;
    }

    /** `by_dossier.setdefault(dossier, []).append(text)`; dictionaries keep insertion order. */
    static method GroupByDossier(texts: seq<RawText>) returns (order: seq<Option<string>>, groups: map<Option<string>, seq<Version>>)
      ensures order == Dossiers(texts)
      ensures forall d :: d in groups <==> d in order
      ensures forall d :: d in groups ==> groups[d] == Members(texts, d)
    {
      order, groups := [], map[];
      for i := 0 to |texts|
        invariant order == Dossiers(texts[..i])
        invariant forall d :: d in groups <==> d in order
        invariant forall d :: d in groups ==> groups[d] == Members(texts[..i], d)
        invariant forall d :: d !in groups ==> Members(texts[..i], d) == []
      {
        assert texts[..i + 1][..i] == texts[..i];
        var t := texts[i];
        if t.dossier !in groups {
          order := order + [t.dossier];
          groups := groups[t.dossier := []];
        }
        groups := groups[t.dossier := groups[t.dossier] + [t.version]];
      }
      assert texts[..|texts|] == texts;
    }

    method ProjectDossier(versions: seq<Version>, d: Option<string>, l: Lookups)
      requires Known(l, d)
      modifies this
      ensures state == AllUpserted(old(state), DossierWrites(versions, d, l))
    {
      var sorted := Sort(versions, KeyLe());
      ghost var ws := DossierWrites(versions, d, l);
      for k := 0 to |sorted|
        invariant state == AllUpserted(old(state), ws[..k])
      {
        assert ws[..k + 1][..k] == ws[..k];
        state := Upserted(state, WriteOf(sorted[k], d, k + 1, l));
      }
      assert ws[..|ws|] == ws;
    }

    /** One entry of the dictionary: skipped when its law is unknown. */
    method ProjectGroup(versions: seq<Version>, d: Option<string>, l: Lookups, ghost texts: seq<RawText>)
      requires versions == Members(texts, d)
      modifies this
      ensures state == DossierProjected(old(state), texts, d, l)
    {
      if !Known(l, d) {
        state := state.(skipped := state.skipped + |versions|);
      } else {
        ProjectDossier(versions, d, l);
      }
    }

    method ProjectGroups(texts: seq<RawText>, l: Lookups)
      modifies this
      ensures state == AllProjected(old(state), texts, Dossiers(texts), l)
    {
      var order, groups := GroupByDossier(texts);
      for i := 0 to |order|
        invariant state == AllProjected(old(state), texts, order[..i], l)
      {
        assert order[..i + 1][..i] == order[..i];
        assert order[i] in order;
        ProjectGroup(groups[order[i]], order[i], l, texts);
      }
      assert order[..|order|] == order;
    }

    method ProjectAll(raw: seq<RawText>, legislature: int, l: Lookups)
      modifies this
      ensures state == RunOver(old(state), raw, legislature, l)
    {
      ProjectGroups(Selected(raw, legislature), l);
    }
  }

  // ---------------------------------------------------------------- grouping loses nothing

  lemma {:induction false} DossiersAreDistinct(texts: seq<RawText>)
    ensures Distinct(Dossiers(texts))
    ensures forall t :: t in texts ==> t.dossier in Dossiers(texts)
  {
    if texts == [] {
    } else {
      var init := texts[..|texts| - 1];
      DossiersAreDistinct(init);
      assert forall t :: t in texts <==> t in init || t == texts[|texts| - 1];
    }
  }

  lemma {:induction false} MemberIsAText(texts: seq<RawText>, d: Option<string>, v: Version) returns (t: RawText)
    requires v in Members(texts, d)
    ensures t in texts && t.dossier == d && t.version == v
  {
    var init, last := texts[..|texts| - 1], texts[|texts| - 1];
    if v in Members(init, d) {
      t := MemberIsAText(init, d, v);
    } else {
      t := last;
    }
  }

  lemma {:induction false} TextIsAMember(texts: seq<RawText>, t: RawText)
    requires t in texts
    ensures t.version in Members(texts, t.dossier)
  {
    var init, last := texts[..|texts| - 1], texts[|texts| - 1];
    if t in init { TextIsAMember(init, t); }
  }

  /** ORDER BY dossier_uid, texte_uid: inside a dossier, by uid. */
  ghost predicate ListedByUid(texts: seq<RawText>) {
    forall i, j :: 0 <= i < j < |texts| && texts[i].dossier == texts[j].dossier ==> UidLe()(texts[i].version, texts[j].version)
  }

  /** Members keep the order of the query, so they are listed by uid. */
  lemma {:induction false} MembersStaySorted(texts: seq<RawText>, d: Option<string>)
    requires ListedByUid(texts)
    ensures Sorted(Members(texts, d), UidLe())
  {
    if texts == [] {
    } else {
      var init, last := texts[..|texts| - 1], texts[|texts| - 1];
      assert ListedByUid(init);
      MembersStaySorted(init, d);
      forall v | v in Members(init, d) && last.dossier == d ensures UidLe()(v, last.version) {
        var t := MemberIsAText(init, d, v);
        var i :| 0 <= i < |init| && init[i] == t;
        assert texts[i] == init[i];
      }
    }
  }

  /** The k-th row is the k-th version, at position k + 1. */
  ghost predicate NumbersAlong(ws: seq<Write>, sorted: seq<Version>) {
    && |ws| == |sorted|
    && forall k :: 0 <= k < |ws| ==> ws[k].position == k + 1 && ws[k].uid == sorted[k].uid && ws[k].kind == sorted[k].kind
  }

  lemma WritesNumber(vs: seq<Version>, d: Option<string>, l: Lookups)
    requires Known(l, d)
    ensures NumbersAlong(DossierWrites(vs, d, l), Sort(vs, KeyLe()))
  {
  }

  /**
   In one run a dossier's versions are numbered exactly 1..n, without hole or repeat,
   along (date, kind, uid), each version once.
   */
  lemma PositionsAreOneToN(texts: seq<RawText>, d: Option<string>, l: Lookups)
    requires ListedByUid(texts)
    requires Known(l, d)
    ensures var vs, ws := Members(texts, d), DossierWrites(Members(texts, d), d, l);
            && NumbersAlong(ws, Sort(vs, KeyLe()))
            && multiset(Sort(vs, KeyLe())) == multiset(vs)
            && Sorted(Sort(vs, KeyLe()), NavetteLe())
  {
    var vs := Members(texts, d);
    MembersStaySorted(texts, d);
    StableSortIsNavetteOrder(vs);
    SortKeeps(vs, KeyLe());
    WritesNumber(vs, d, l);
  }

  // ---------------------------------------------------------------- what rows come from

  lemma {:induction false} RowAfter(st: State, ws: seq<Write>, uid: string)
    ensures var after := AllUpserted(st, ws);
            && (uid in after.rows <==> uid in st.rows || exists w :: w in ws && w.uid == uid)
            && (uid in st.rows ==> after.rows[uid].id == st.rows[uid].id)
            && (uid in after.rows ==>
                  || (uid in st.rows && after.rows[uid] == st.rows[uid])
                  || exists w :: w in ws && w.uid == uid && after.rows[uid].lawId == w.lawId
                              && after.rows[uid].readingId == w.readingId && after.rows[uid].position == w.position)
  {
    if ws == [] {
    } else {
      var init, last := ws[..|ws| - 1], ws[|ws| - 1];
      RowAfter(st, init, uid);
      assert last in ws && forall w :: w in ws <==> w in init || w == last;
    }
  }

  // ---------------------------------------------------------------- the table after a run

  ghost predicate DistinctWrites(ws: seq<Write>) {
    forall i, j :: 0 <= i < j < |ws| ==> ws[i].uid != ws[j].uid
  }

  ghost predicate Holds(st: State, w: Write) {
    && w.uid in st.rows && st.rows[w.uid].lawId == w.lawId && st.rows[w.uid].readingId == w.readingId
    && st.rows[w.uid].kind == w.kind && st.rows[w.uid].number == w.number && st.rows[w.uid].position == w.position
    && st.rows[w.uid].sourceUrl == w.sourceUrl
  }

  lemma {:induction false} EachWriteLands(st: State, ws: seq<Write>, k: nat)
    requires DistinctWrites(ws) && k < |ws|
    ensures Holds(AllUpserted(st, ws), ws[k])
    decreases |ws|
  {
    if k < |ws| - 1 {
      assert ws[..|ws| - 1][k] == ws[k] && ws[k].uid != ws[|ws| - 1].uid;
      EachWriteLands(st, ws[..|ws| - 1], k);
    }
  }

  lemma {:induction false} OtherRowsStay(st: State, ws: seq<Write>, uid: string)
    requires forall w :: w in ws ==> w.uid != uid
    ensures uid in AllUpserted(st, ws).rows <==> uid in st.rows
    ensures uid in st.rows ==> AllUpserted(st, ws).rows[uid] == st.rows[uid]
  {
    if ws == [] {
    } else {
      assert ws[|ws| - 1] in ws && forall w :: w in ws[..|ws| - 1] ==> w in ws;
      OtherRowsStay(st, ws[..|ws| - 1], uid);
    }
  }

  /** texte_uid is the key of raw.law_text. */
  ghost predicate DistinctTexts(texts: seq<RawText>) {
    forall i, j :: 0 <= i < j < |texts| ==> texts[i].version.uid != texts[j].version.uid
  }

  lemma {:induction false} MembersAreDistinct(texts: seq<RawText>, d: Option<string>)
    requires DistinctTexts(texts)
    ensures DistinctUids(Members(texts, d))
  {
    if texts == [] {
    } else {
      var init, last := texts[..|texts| - 1], texts[|texts| - 1];
      assert DistinctTexts(init);
      MembersAreDistinct(init, d);
      forall i | 0 <= i < |Members(init, d)| ensures Members(init, d)[i].uid != last.version.uid {
        var t := MemberIsAText(init, d, Members(init, d)[i]);
        var k :| 0 <= k < |init| && init[k] == t;
        assert texts[k].version.uid != texts[|texts| - 1].version.uid;
      }
    }
  }

  lemma SameUidSameText(texts: seq<RawText>, t: RawText, u: RawText)
    requires DistinctTexts(texts) && t in texts && u in texts && t.version.uid == u.version.uid
    ensures t == u
  {
    var i :| 0 <= i < |texts| && texts[i] == t;
    var j :| 0 <= j < |texts| && texts[j] == u;
    assert i == j;
  }

  lemma WritesAreDistinct(vs: seq<Version>, d: Option<string>, l: Lookups)
    requires Known(l, d) && DistinctUids(vs)
    ensures DistinctWrites(DossierWrites(vs, d, l))
  {
    var sorted := Sort(vs, KeyLe());
    SortDistinct(vs, KeyLe());
    forall i, j | 0 <= i < j < |sorted| ensures sorted[i].uid != sorted[j].uid {
      SortMembers(vs, KeyLe(), sorted[i]);
      SortMembers(vs, KeyLe(), sorted[j]);
      var a :| 0 <= a < |vs| && vs[a] == sorted[i];
      var b :| 0 <= b < |vs| && vs[b] == sorted[j];
      assert a != b;
    }
  }

  function ReadingFor(t: RawText, l: Lookups): Option<int> {
    if (t.dossier, t.version.uid) in l.readings then l.readings[(t.dossier, t.version.uid)] else None
  }

  /** The row of a text: its law, its reading, its kind, its document's number, and its place among the versions of its dossier. */
  ghost predicate IsNumbered(st: State, texts: seq<RawText>, t: RawText, l: Lookups)
    requires Known(l, t.dossier)
  {
    && t.version.uid in st.rows && st.rows[t.version.uid].lawId == l.laws[t.dossier.value]
    && st.rows[t.version.uid].readingId == ReadingFor(t, l)
    && st.rows[t.version.uid].kind == t.version.kind && st.rows[t.version.uid].sourceUrl == t.version.sourceUrl
    && (t.version.uid in l.numbers ==> st.rows[t.version.uid].number == l.numbers[t.version.uid])
    && (t.version.uid !in l.numbers ==> st.rows[t.version.uid].number.None?)
    && HasPosition(Members(texts, t.dossier), t.version, st.rows[t.version.uid].position)
  }

  lemma DossierNumbersIt(st: State, texts: seq<RawText>, t: RawText, l: Lookups)
    requires DistinctTexts(texts) && t in texts && Known(l, t.dossier)
    ensures IsNumbered(DossierProjected(st, texts, t.dossier, l), texts, t, l)
  {
    var vs := Members(texts, t.dossier);
    MembersAreDistinct(texts, t.dossier);
    TextIsAMember(texts, t);
    WritesAreDistinct(vs, t.dossier, l);
    SortMembers(vs, KeyLe(), t.version);
    var k :| 0 <= k < |Sort(vs, KeyLe())| && Sort(vs, KeyLe())[k] == t.version;
    EachWriteLands(st, DossierWrites(vs, t.dossier, l), k);
  }

  lemma OtherDossierLeavesIt(st: State, texts: seq<RawText>, t: RawText, l: Lookups, d: Option<string>)
    requires DistinctTexts(texts) && t in texts && Known(l, t.dossier) && d != t.dossier
    requires IsNumbered(st, texts, t, l)
    ensures IsNumbered(DossierProjected(st, texts, d, l), texts, t, l)
  {
    if Known(l, d) {
      var vs := Members(texts, d);
      MembersAreDistinct(texts, d);
      var ws := DossierWrites(vs, d, l);
      forall w | w in ws ensures w.uid != t.version.uid {
        var k :| 0 <= k < |ws| && ws[k] == w;
        SortMembers(vs, KeyLe(), Sort(vs, KeyLe())[k]);
        var u := MemberIsAText(texts, d, Sort(vs, KeyLe())[k]);
        if w.uid == t.version.uid { SameUidSameText(texts, t, u); }
      }
      OtherRowsStay(st, ws, t.version.uid);
    }
  }

  lemma {:induction false} NumberedAlong(st: State, texts: seq<RawText>, ds: seq<Option<string>>, t: RawText, l: Lookups)
    requires DistinctTexts(texts) && t in texts && Known(l, t.dossier) && t.dossier in ds
    ensures IsNumbered(AllProjected(st, texts, ds, l), texts, t, l)
  {
    var init, last := ds[..|ds| - 1], ds[|ds| - 1];
    if last == t.dossier {
      DossierNumbersIt(AllProjected(st, texts, init, l), texts, t, l);
    } else {
      NumberedAlong(st, texts, init, t, l);
      OtherDossierLeavesIt(AllProjected(st, texts, init, l), texts, t, l, last);
    }
  }

  /**
   After a run, every text of a projected law is in public.law_text under its law, at its
   place in the navette of its dossier, whatever the table held.
   */
  lemma EachTextIsNumbered(st: State, texts: seq<RawText>, t: RawText, l: Lookups)
    requires DistinctTexts(texts) && t in texts && Known(l, t.dossier)
    ensures IsNumbered(AllProjected(st, texts, Dossiers(texts), l), texts, t, l)
  {
    DossiersAreDistinct(texts);
    NumberedAlong(st, texts, Dossiers(texts), t, l);
  }

  // ---------------------------------------------------------------- a run as its writes

  function RunWrites(texts: seq<RawText>, ds: seq<Option<string>>, l: Lookups): seq<Write> {
    if ds == [] then []
    else
      var before, d := RunWrites(texts, ds[..|ds| - 1], l), ds[|ds| - 1];
      if Known(l, d) then before + DossierWrites(Members(texts, d), d, l) else before
  }

  ghost predicate SameRows(a: State, b: State) { a.rows == b.rows && a.nextId == b.nextId }

  lemma {:induction false} UpsertsOfSameRows(a: State, b: State, ws: seq<Write>)
    requires SameRows(a, b)
    ensures SameRows(AllUpserted(a, ws), AllUpserted(b, ws))
  {
    if ws == [] {
    } else {
      UpsertsOfSameRows(a, b, ws[..|ws| - 1]);
    }
  }

  lemma {:induction false} UpsertsAppend(st: State, a: seq<Write>, b: seq<Write>)
    ensures AllUpserted(st, a + b) == AllUpserted(AllUpserted(st, a), b)
  {
    if b == [] {
      assert a + b == a;
    } else {
      assert (a + b)[..|a + b| - 1] == a + b[..|b| - 1];
      UpsertsAppend(st, a, b[..|b| - 1]);
    }
  }

  lemma {:induction false} RunIsItsWrites(st: State, texts: seq<RawText>, ds: seq<Option<string>>, l: Lookups)
    ensures SameRows(AllProjected(st, texts, ds, l), AllUpserted(st, RunWrites(texts, ds, l)))
  {
    if ds == [] {
    } else {
      var init, d := ds[..|ds| - 1], ds[|ds| - 1];
      RunIsItsWrites(st, texts, init, l);
      if Known(l, d) {
        var ws := DossierWrites(Members(texts, d), d, l);
        UpsertsOfSameRows(AllProjected(st, texts, init, l), AllUpserted(st, RunWrites(texts, init, l)), ws);
        UpsertsAppend(st, RunWrites(texts, init, l), ws);
      }
    }
  }

  lemma {:induction false} WritesComeFromTexts(texts: seq<RawText>, ds: seq<Option<string>>, l: Lookups, w: Write)
    requires w in RunWrites(texts, ds, l)
    ensures exists t :: t in texts && t.version.uid == w.uid
  {
    var init, d := ds[..|ds| - 1], ds[|ds| - 1];
    if w in RunWrites(texts, init, l) {
      WritesComeFromTexts(texts, init, l, w);
    } else {
      var vs := Members(texts, d);
      var k :| 0 <= k < |DossierWrites(vs, d, l)| && DossierWrites(vs, d, l)[k] == w;
      SortMembers(vs, KeyLe(), Sort(vs, KeyLe())[k]);
      var t := MemberIsAText(texts, d, Sort(vs, KeyLe())[k]);
    }
  }

  /** A text that the run does not select keeps its row, position included. */
  lemma UnselectedRowStays(st: State, raw: seq<RawText>, legislature: int, l: Lookups, t: RawText)
    requires DistinctTexts(raw) && t in raw && (t.legislature != legislature || !t.available)
    ensures var after, uid := RunOver(st, raw, legislature, l), t.version.uid;
            (uid in after.rows <==> uid in st.rows) && (uid in st.rows ==> after.rows[uid] == st.rows[uid])
  {
    var texts := Selected(raw, legislature);
    var ws := RunWrites(texts, Dossiers(texts), l);
    RunIsItsWrites(st, texts, Dossiers(texts), l);
    forall w | w in ws ensures w.uid != t.version.uid {
      WritesComeFromTexts(texts, Dossiers(texts), l, w);
      var u :| u in texts && u.version.uid == w.uid;
      if w.uid == t.version.uid { SameUidSameText(raw, t, u); }
    }
    OtherRowsStay(st, ws, t.version.uid);
  }

  // ---------------------------------------------------------------- counters

  /** Rows are counted as they are: `created` by how many the table grew, each row once. */
  lemma {:induction false} UpsertsAreCounted(st: State, ws: seq<Write>)
    ensures var after := AllUpserted(st, ws);
            && |after.rows.Keys| - |st.rows.Keys| == after.created - st.created
            && after.created + after.updated == st.created + st.updated + |ws|
            && after.processed == st.processed + |ws| && after.skipped == st.skipped
  {
    if ws == [] {
    } else {
      var init := AllUpserted(st, ws[..|ws| - 1]);
      UpsertsAreCounted(st, ws[..|ws| - 1]);
      assert AllUpserted(st, ws).rows.Keys == init.rows.Keys + {ws[|ws| - 1].uid};
    }
  }

  function MembersOfAll(texts: seq<RawText>, ds: seq<Option<string>>): nat {
    if ds == [] then 0 else MembersOfAll(texts, ds[..|ds| - 1]) + |Members(texts, ds[|ds| - 1])|
  }

  lemma {:induction false} DossiersAreCounted(st: State, texts: seq<RawText>, ds: seq<Option<string>>, l: Lookups)
    ensures var after := AllProjected(st, texts, ds, l);
            && |after.rows.Keys| - |st.rows.Keys| == after.created - st.created
            && after.processed - st.processed == after.created - st.created + after.updated - st.updated
            && after.processed - st.processed + after.skipped - st.skipped == MembersOfAll(texts, ds)
  {
    if ds == [] {
    } else {
      var n := |ds| - 1;
      DossiersAreCounted(st, texts, ds[..n], l);
      var mid := AllProjected(st, texts, ds[..n], l);
      if Known(l, ds[n]) {
        UpsertsAreCounted(mid, DossierWrites(Members(texts, ds[n]), ds[n], l));
        SortKeeps(Members(texts, ds[n]), KeyLe());
      }
    }
  }

  lemma {:induction false} MembersSplit(texts: seq<RawText>, ds: seq<Option<string>>, t: RawText)
    requires Distinct(ds)
    ensures MembersOfAll(texts + [t], ds) == MembersOfAll(texts, ds) + if t.dossier in ds then 1 else 0
  {
    if ds == [] {
    } else {
      var n := |ds| - 1;
      MembersSplit(texts, ds[..n], t);
      assert (texts + [t])[..|texts|] == texts;
      assert t.dossier in ds <==> t.dossier in ds[..n] || t.dossier == ds[n];
      assert forall k :: 0 <= k < n ==> ds[k] != ds[n];
    }
  }

  lemma {:induction false} NoMembers(texts: seq<RawText>, d: Option<string>)
    requires d !in Dossiers(texts)
    ensures Members(texts, d) == []
  {
    if texts == [] {
    } else {
      NoMembers(texts[..|texts| - 1], d);
    }
  }

  lemma {:induction false} GroupsHoldEveryText(texts: seq<RawText>)
    ensures MembersOfAll(texts, Dossiers(texts)) == |texts|
  {
    if texts == [] {
    } else {
      var init, t := texts[..|texts| - 1], texts[|texts| - 1];
      var ds := Dossiers(init);
      GroupsHoldEveryText(init);
      DossiersAreDistinct(init);
      assert texts == init + [t];
      MembersSplit(init, ds, t);
      if t.dossier !in ds {
        NoMembers(init, t.dossier);
        assert Dossiers(texts) == ds + [t.dossier] && (ds + [t.dossier])[..|ds|] == ds;
        assert Members(texts, t.dossier) == [t.version];
      }
    }
  }

  /** Over a run: created + updated + skipped is the number of texts selected, and created the growth of the table. */
  lemma RunIsCounted(st: State, raw: seq<RawText>, legislature: int, l: Lookups)
    ensures var after := RunOver(st, raw, legislature, l);
            && |after.rows.Keys| - |st.rows.Keys| == after.created - st.created
            && after.created - st.created + after.updated - st.updated + after.skipped - st.skipped == |Selected(raw, legislature)|
  {
    var texts := Selected(raw, legislature);
    DossiersAreCounted(st, texts, Dossiers(texts), l);
    GroupsHoldEveryText(texts);
  }

  // ---------------------------------------------------------------- the same run again

  function LastWrite(ws: seq<Write>, uid: string): Option<Write> {
    if ws == [] then None
    else if ws[|ws| - 1].uid == uid then Some(ws[|ws| - 1]) else LastWrite(ws[..|ws| - 1], uid)
  }

  lemma {:induction false} LastWriteStays(st: State, ws: seq<Write>, uid: string)
    ensures var after, last := AllUpserted(st, ws), LastWrite(ws, uid);
            && (uid in after.rows <==> uid in st.rows || last.Some?)
            && (last.Some? ==> Holds(after, last.value) && last.value.uid == uid)
            && (last.None? && uid in st.rows ==> after.rows[uid] == st.rows[uid])
            && (uid in st.rows ==> after.rows[uid].id == st.rows[uid].id)
  {
    if ws == [] {
    } else {
      LastWriteStays(st, ws[..|ws| - 1], uid);
    }
  }

  lemma UpsertAgain(st: State, ws: seq<Write>, later: State)
    requires later.rows == AllUpserted(st, ws).rows
    ensures AllUpserted(later, ws).rows == later.rows
  {
    var twice := AllUpserted(later, ws);
    forall uid ensures (uid in twice.rows <==> uid in later.rows) && (uid in later.rows ==> twice.rows[uid] == later.rows[uid]) {
      LastWriteStays(st, ws, uid);
      LastWriteStays(later, ws, uid);
    }
  }

  /** The same run again, over a table with the rows it left, changes none. */
  lemma RunAgain(st: State, raw: seq<RawText>, legislature: int, l: Lookups, later: State)
    requires later.rows == RunOver(st, raw, legislature, l).rows
    ensures RunOver(later, raw, legislature, l).rows == later.rows
  {
    var texts := Selected(raw, legislature);
    var ws := RunWrites(texts, Dossiers(texts), l);
    RunIsItsWrites(st, texts, Dossiers(texts), l);
    RunIsItsWrites(later, texts, Dossiers(texts), l);
    UpsertAgain(st, ws, later);
  }

  // ---------------------------------------------------------------- the route over the table

  lemma {:induction false} SelectedStaysDistinct(raw: seq<RawText>, legislature: int)
    requires DistinctTexts(raw)
    ensures DistinctTexts(Selected(raw, legislature))
  {
    if raw == [] {
    } else {
      var init, last := raw[..|raw| - 1], raw[|raw| - 1];
      assert DistinctTexts(init);
      SelectedStaysDistinct(init, legislature);
      forall i | 0 <= i < |Selected(init, legislature)| ensures Selected(init, legislature)[i].version.uid != last.version.uid {
        var t := Selected(init, legislature)[i];
        assert t in Selected(init, legislature);
        var k :| 0 <= k < |init| && init[k] == t;
        assert raw[k].version.uid != raw[|raw| - 1].version.uid;
      }
    }
  }

  lemma {:induction false} SelectedStaysListed(raw: seq<RawText>, legislature: int)
    requires ListedByUid(raw)
    ensures ListedByUid(Selected(raw, legislature))
  {
    if raw == [] {
    } else {
      var init, last := raw[..|raw| - 1], raw[|raw| - 1];
      assert ListedByUid(init);
      SelectedStaysListed(init, legislature);
      forall i | 0 <= i < |Selected(init, legislature)| && Selected(init, legislature)[i].dossier == last.dossier
        ensures UidLe()(Selected(init, legislature)[i].version, last.version)
      {
        var t := Selected(init, legislature)[i];
        assert t in Selected(init, legislature);
        var k :| 0 <= k < |init| && init[k] == t;
        assert raw[k].dossier == raw[|raw| - 1].dossier;
      }
    }
  }

  /** Every row of the dossier is one the run numbers. */
  ghost predicate AllWanted(raw: seq<RawText>, legislature: int, d: Option<string>) {
    forall t :: t in raw && t.dossier == d ==> Wanted(t, legislature)
  }

  ghost predicate Placed(st: State) { forall u :: u in st.rows ==> st.rows[u].position >= 1 }

  /** What the route lists first, among the rows of the dossier that are stored, has the smaller position. */
  ghost predicate RouteAgrees(st: State, vs: seq<Version>) {
    forall x, y :: x in vs && y in vs && x.uid != y.uid && x.uid in st.rows && y.uid in st.rows && RouteLe()(x, y)
      ==> st.rows[x.uid].position < st.rows[y.uid].position
  }

  ghost predicate NoneDisagree(vs: seq<Version>) { forall x, y :: x in vs && y in vs ==> !Disagree(x, y) }

  /** The raw table, one dossier of a projected law, and calendar dates. */
  ghost predicate RouteInput(raw: seq<RawText>, d: Option<string>, l: Lookups) {
    DistinctTexts(raw) && ListedByUid(raw) && Known(l, d) && Calendar(Members(raw, d))
  }

  lemma SelectedIsNumbered(st: State, raw: seq<RawText>, legislature: int, d: Option<string>, l: Lookups, t: RawText)
    requires RouteInput(raw, d, l) && t in raw && t.dossier == d && Wanted(t, legislature)
    ensures var after, vs := RunOver(st, raw, legislature, l), Members(Selected(raw, legislature), d);
            && Sorted(vs, UidLe()) && DistinctUids(vs) && t.version in vs
            && t.version.uid in after.rows && HasPosition(vs, t.version, after.rows[t.version.uid].position)
  {
    var texts := Selected(raw, legislature);
    SelectedStaysDistinct(raw, legislature);
    SelectedStaysListed(raw, legislature);
    MembersStaySorted(texts, d);
    MembersAreDistinct(texts, d);
    TextIsAMember(texts, t);
    EachTextIsNumbered(st, texts, t, l);
  }

  /** Two rows that the same run numbers: their positions follow the navette. */
  lemma NumberedTogether(st: State, raw: seq<RawText>, legislature: int, d: Option<string>, l: Lookups, t: RawText, u: RawText)
    requires RouteInput(raw, d, l) && t in raw && u in raw && t.dossier == u.dossier == d && t != u
    requires Wanted(t, legislature) && Wanted(u, legislature)
    ensures var rows := RunOver(st, raw, legislature, l).rows;
            && t.version.uid in rows && u.version.uid in rows
            && (rows[t.version.uid].position < rows[u.version.uid].position <==> NavetteLe()(t.version, u.version))
  {
    SelectedIsNumbered(st, raw, legislature, d, l, t);
    SelectedIsNumbered(st, raw, legislature, d, l, u);
    if t.version == u.version { SameUidSameText(raw, t, u); }
    var rows := RunOver(st, raw, legislature, l).rows;
    PositionsFollowNavette(Members(Selected(raw, legislature), d), t.version, u.version,
                           rows[t.version.uid].position, rows[u.version.uid].position);
  }

  lemma RouteIsNavette(x: Version, y: Version)
    requires x.uid != y.uid && RouteLe()(x, y) && !Disagree(y, x)
    requires (x.deposited.Some? ==> x.deposited.value <= DATE_MAX) && (y.deposited.Some? ==> y.deposited.value <= DATE_MAX)
    ensures NavetteLe()(x, y)
  {
    OrdersPartExactlyThere(y, x);
    TextLeTotal(x.uid, y.uid);
    if TextLe(x.uid, y.uid) && TextLe(y.uid, x.uid) { TextLeAntiSymmetric(x.uid, y.uid); }
  }

  /** One run puts the positions of a dossier in the order of the route, whatever the table held before. */
  lemma OneRunAgrees(st: State, raw: seq<RawText>, legislature: int, d: Option<string>, l: Lookups)
    requires RouteInput(raw, d, l) && AllWanted(raw, legislature, d) && NoneDisagree(Members(raw, d))
    ensures RouteAgrees(RunOver(st, raw, legislature, l), Members(raw, d))
  {
    var vs, after := Members(raw, d), RunOver(st, raw, legislature, l);
    forall x, y | x in vs && y in vs && x.uid != y.uid && x.uid in after.rows && y.uid in after.rows && RouteLe()(x, y)
      ensures after.rows[x.uid].position < after.rows[y.uid].position
    {
      var t := MemberIsAText(raw, d, x);
      var u := MemberIsAText(raw, d, y);
      RouteIsNavette(x, y);
      NumberedTogether(st, raw, legislature, d, l, t, u);
    }
  }

  /** A table with two rows of a dossier, at given positions. */
  function TwoRows(x: string, p: int, y: string, q: int): State {
    State(map[x := TextRow(1, 0, None, None, None, p, ""), y := TextRow(2, 0, None, None, None, q, "")], 3, 0, 0, 0, 0)
  }

  /** A row that the run does not number may stand anywhere: some table makes it disagree with any other row. */
  lemma UnnumberedBreaksIt(raw: seq<RawText>, legislature: int, d: Option<string>, l: Lookups, t: RawText, u: RawText)
    requires RouteInput(raw, d, l) && t in raw && u in raw && t.dossier == u.dossier == d && t != u && !Wanted(t, legislature)
    ensures exists st :: Placed(st) && !RouteAgrees(RunOver(st, raw, legislature, l), Members(raw, d))
  {
    var vs := Members(raw, d);
    var x, y := t.version, u.version;
    TextIsAMember(raw, t);
    TextIsAMember(raw, u);
    if x.uid == y.uid { SameUidSameText(raw, t, u); }
    var n := |Members(Selected(raw, legislature), d)|;
    TextLeTotal(x.uid, y.uid);
    var st := if RouteLe()(x, y) then TwoRows(x.uid, n + 2, y.uid, 1) else TwoRows(x.uid, 1, y.uid, 1);
    var after := RunOver(st, raw, legislature, l);
    UnselectedRowStays(st, raw, legislature, l, t);
    if Wanted(u, legislature) {
      SelectedIsNumbered(st, raw, legislature, d, l, u);
      SortKeeps(Members(Selected(raw, legislature), d), KeyLe());
    } else {
      UnselectedRowStays(st, raw, legislature, l, u);
    }
    assert RouteLe()(x, y) || RouteLe()(y, x);
    assert Placed(st) && !RouteAgrees(after, vs);
  }

  /** A disagreeing pair that the run numbers is listed against its positions, whatever the table held. */
  lemma DisagreeingBreaksIt(st: State, raw: seq<RawText>, legislature: int, d: Option<string>, l: Lookups, x: Version, y: Version)
    requires RouteInput(raw, d, l) && AllWanted(raw, legislature, d) && x in Members(raw, d) && y in Members(raw, d) && Disagree(x, y)
    ensures !RouteAgrees(RunOver(st, raw, legislature, l), Members(raw, d))
  {
    var t := MemberIsAText(raw, d, x);
    var u := MemberIsAText(raw, d, y);
    if t == u { assert false; }
    OrdersPartExactlyThere(x, y);
    TextLeTotal(x.uid, y.uid);
    NumberedTogether(st, raw, legislature, d, l, t, u);
    if x.uid == y.uid { SameUidSameText(raw, t, u); }
    assert RouteLe()(y, x);
  }

  /**
   A run leaves the positions of a dossier in the order of the route, whatever the table held
   before, exactly when no two of its versions disagree and the run numbers all its rows
   (or there is only one row, or none).
   */
  lemma RouteAgreesIff(raw: seq<RawText>, legislature: int, d: Option<string>, l: Lookups)
    requires RouteInput(raw, d, l)
    ensures (forall st :: Placed(st) ==> RouteAgrees(RunOver(st, raw, legislature, l), Members(raw, d)))
       <==> (NoneDisagree(Members(raw, d)) && (AllWanted(raw, legislature, d) || |Members(raw, d)| <= 1))
  {
    var vs := Members(raw, d);
    if |vs| <= 1 {
      forall x, y | x in vs && y in vs ensures x == y { }
    } else if !AllWanted(raw, legislature, d) {
      var t :| t in raw && t.dossier == d && !Wanted(t, legislature);
      MembersAreDistinct(raw, d);
      assert vs[0].uid != vs[1].uid;
      var v := if vs[0].uid == t.version.uid then vs[1] else vs[0];
      var u := MemberIsAText(raw, d, v);
      UnnumberedBreaksIt(raw, legislature, d, l, t, u);
    } else if NoneDisagree(vs) {
      forall st ensures RouteAgrees(RunOver(st, raw, legislature, l), vs) { OneRunAgrees(st, raw, legislature, d, l); }
    } else {
      var x, y :| x in vs && y in vs && Disagree(x, y);
      var empty := State(map[], 1, 0, 0, 0, 0);
      assert Placed(empty);
      DisagreeingBreaksIt(empty, raw, legislature, d, l, x, y);
    }
  }

  /** Under that condition the route lists the texts of a dossier by strictly increasing stored position. */
  lemma RouteFollowsTheTable(st: State, raw: seq<RawText>, legislature: int, d: Option<string>, l: Lookups, shown: seq<Version>, i: nat, j: nat)
    requires RouteInput(raw, d, l) && NoneDisagree(Members(raw, d)) && AllWanted(raw, legislature, d)
    requires Sorted(shown, RouteLe()) && DistinctUids(shown) && (forall v :: v in shown ==> v in Members(raw, d))
    requires i < j < |shown|
    ensures var rows := RunOver(st, raw, legislature, l).rows;
            && shown[i].uid in rows && shown[j].uid in rows
            && rows[shown[i].uid].position < rows[shown[j].uid].position
  {
    assert shown[i] in shown && shown[j] in shown && RouteLe()(shown[i], shown[j]);
    var t := MemberIsAText(raw, d, shown[i]);
    var u := MemberIsAText(raw, d, shown[j]);
    SelectedIsNumbered(st, raw, legislature, d, l, t);
    SelectedIsNumbered(st, raw, legislature, d, l, u);
    OneRunAgrees(st, raw, legislature, d, l);
  }

  // ---------------------------------------------------------------- two legislatures, one dossier

  const VERSION_A := Version("A", Some(Deposited), Some(1), "")
  const VERSION_B := Version("B", Some(Commission), Some(2), "")
  const VERSION_C := Version("C", Some(Adopted), Some(3), "")

  const TEXT_A := RawText(Some("D"), 17, true, VERSION_A)
  const TEXT_B := RawText(Some("D"), 17, true, VERSION_B)
  const TEXT_C := RawText(Some("D"), 16, true, VERSION_C)

  lemma SelectedSnoc(raw: seq<RawText>, t: RawText, legislature: int)
    ensures Selected(raw + [t], legislature) == Selected(raw, legislature) + if Wanted(t, legislature) then [t] else []
  {
    assert (raw + [t])[..|raw|] == raw;
  }

  lemma MembersSnoc(texts: seq<RawText>, t: RawText, d: Option<string>)
    ensures Members(texts + [t], d) == Members(texts, d) + if t.dossier == d then [t.version] else []
  {
    assert (texts + [t])[..|texts|] == texts;
  }

  lemma SelectedOfTwo()
    ensures Selected([TEXT_A, TEXT_B, TEXT_C], 17) == [TEXT_A, TEXT_B]
    ensures Selected([TEXT_A, TEXT_B, TEXT_C], 16) == [TEXT_C]
  {
    assert [] + [TEXT_A] == [TEXT_A] && [TEXT_A] + [TEXT_B] == [TEXT_A, TEXT_B];
    assert [TEXT_A, TEXT_B] + [TEXT_C] == [TEXT_A, TEXT_B, TEXT_C];
    forall legislature: int
      ensures Selected([TEXT_A, TEXT_B, TEXT_C], legislature)
           == (if legislature == 17 then [TEXT_A, TEXT_B] else []) + (if legislature == 16 then [TEXT_C] else [])
    {
      SelectedSnoc([], TEXT_A, legislature);
      SelectedSnoc([TEXT_A], TEXT_B, legislature);
      SelectedSnoc([TEXT_A, TEXT_B], TEXT_C, legislature);
    }
  }

  lemma MembersOfTwo()
    ensures Members([TEXT_A, TEXT_B], Some("D")) == [VERSION_A, VERSION_B] && Members([TEXT_C], Some("D")) == [VERSION_C]
  {
    assert [] + [TEXT_A] == [TEXT_A] && [TEXT_A] + [TEXT_B] == [TEXT_A, TEXT_B] && [] + [TEXT_C] == [TEXT_C];
    MembersSnoc([], TEXT_A, Some("D"));
    MembersSnoc([TEXT_A], TEXT_B, Some("D"));
    MembersSnoc([], TEXT_C, Some("D"));
  }

  lemma PlacesOfTwo(p: int)
    ensures HasPosition([VERSION_A, VERSION_B], VERSION_B, p) ==> p == 2
    ensures HasPosition([VERSION_C], VERSION_C, p) ==> p == 1
  {
    assert [VERSION_A, VERSION_B][1..] == [VERSION_B];
    assert Sort([VERSION_B], KeyLe()) == [VERSION_B];
    assert Insert(VERSION_A, [VERSION_B], KeyLe()) == [VERSION_A, VERSION_B];
    SortKeeps([VERSION_C], KeyLe());
  }

  lemma FirstLegislaturePlacesB(l: Lookups)
    requires "D" in l.laws
    ensures var rows := RunOver(State(map[], 1, 0, 0, 0, 0), [TEXT_A, TEXT_B, TEXT_C], 17, l).rows;
            "B" in rows && rows["B"].position == 2
  {
    var empty := State(map[], 1, 0, 0, 0, 0);
    SelectedOfTwo();
    MembersOfTwo();
    assert TEXT_B == [TEXT_A, TEXT_B][1];
    EachTextIsNumbered(empty, [TEXT_A, TEXT_B], TEXT_B, l);
    PlacesOfTwo(RunOver(empty, [TEXT_A, TEXT_B, TEXT_C], 17, l).rows["B"].position);
  }

  lemma SecondLegislatureLeavesB(st: State, l: Lookups)
    ensures var rows := RunOver(st, [TEXT_A, TEXT_B, TEXT_C], 16, l).rows;
            "B" in st.rows ==> "B" in rows && rows["B"] == st.rows["B"]
  {
    assert TEXT_B == [TEXT_A, TEXT_B, TEXT_C][1];
    UnselectedRowStays(st, [TEXT_A, TEXT_B, TEXT_C], 16, l, TEXT_B);
  }

  lemma SecondLegislaturePlacesC(st: State, l: Lookups)
    requires "D" in l.laws
    ensures var rows := RunOver(st, [TEXT_A, TEXT_B, TEXT_C], 16, l).rows;
            "C" in rows && rows["C"].position == 1
  {
    var raw := [TEXT_A, TEXT_B, TEXT_C];
    SelectedOfTwo();
    MembersOfTwo();
    assert TEXT_C == [TEXT_C][0];
    EachTextIsNumbered(st, [TEXT_C], TEXT_C, l);
    PlacesOfTwo(RunOver(st, raw, 16, l).rows["C"].position);
  }

  /**
   A dossier collected under two legislatures, its kinds known and its dates all different:
   after one run for each, the last version stands before the second.
   */
  lemma TwoLegislaturesBreakTheRoute(l: Lookups)
    requires "D" in l.laws
    ensures NoneDisagree([VERSION_A, VERSION_B, VERSION_C]) && RouteLe()(VERSION_B, VERSION_C)
    ensures var raw := [TEXT_A, TEXT_B, TEXT_C];
            var rows := RunOver(RunOver(State(map[], 1, 0, 0, 0, 0), raw, 17, l), raw, 16, l).rows;
            && "B" in rows && "C" in rows && rows["B"].position == 2 && rows["C"].position == 1
  {
    var once := RunOver(State(map[], 1, 0, 0, 0, 0), [TEXT_A, TEXT_B, TEXT_C], 17, l);
    FirstLegislaturePlacesB(l);
    SecondLegislatureLeavesB(once, l);
    SecondLegislaturePlacesC(once, l);
  }
}

/** Projection of amendments by keyset pages: `id > last_id ORDER BY id LIMIT page`. */
module AmendmentPages {
  import opened Prelude

  datatype RawAmendment = RawAmendment(
    uid: string, legislature: int, dossierUid: Option<string>, texteUid: string,
    byDeputy: bool, deputyUid: Option<string>, groupUid: Option<string>, content: string)

  /** raw.amendment by surrogate id; the table guarantees positive ids and unique uids. */
  type RawTable = map<nat, RawAmendment>

  ghost predicate ValidRaw(raw: RawTable) {
    && 0 !in raw
    && forall i, j :: i in raw && j in raw && raw[i].uid == raw[j].uid ==> i == j
  }

  datatype Lookups = Lookups(
    laws: map<string, int>, deputies: map<string, int>, groups: map<string, int>, readings: map<(int, string), int>)

  function Lookup<K>(m: map<K, int>, k: Option<K>): Option<int> {
    if k.Some? && k.value in m then Some(m[k.value]) else None
  }

  /** The columns the projection names; `law_article_id` is not one of them. */
  datatype Cols = Cols(lawId: int, readingId: Option<int>, deputyId: Option<int>, groupId: Option<int>, content: string)

  datatype PubRow = PubRow(id: nat, cols: Cols, lawArticleId: Option<int>)

  /** public.amendment, with how many rows the run created and updated. */
  datatype State = State(rows: map<string, PubRow>, nextId: nat, created: nat, updated: nat)

  // ---------------------------------------------------------------- single shot

  /** Kept when the law is known and, for a deputy's amendment, the deputy too. */
  predicate Kept(a: RawAmendment, l: Lookups) {
    Lookup(l.laws, a.dossierUid).Some? && !(a.byDeputy && Lookup(l.deputies, a.deputyUid).None?)
  }

  function ColsOf(a: RawAmendment, l: Lookups): Cols
    requires Kept(a, l)
  {
    var lawId := l.laws[a.dossierUid.value];
    Cols(lawId, Lookup(l.readings, Some((lawId, a.texteUid))), Lookup(l.deputies, a.deputyUid),
         Lookup(l.groups, a.groupUid), a.content)
  }

  datatype KeptRow = KeptRow(uid: string, cols: Cols)

  function KeptRows(page: seq<RawAmendment>, l: Lookups): (r: seq<KeptRow>)
    ensures |r| <= |page|
  {
    if page == [] then []
    else
      var before, a := KeptRows(page[..|page| - 1], l), page[|page| - 1];
      if Kept(a, l) then before + [KeptRow(a.uid, ColsOf(a, l))] else before
  }

  function Upserted(st: State, row: KeptRow): State {
    if row.uid in st.rows then
      State(st.rows[row.uid := st.rows[row.uid].(cols := row.cols)], st.nextId + 1, st.created, st.updated + 1)
    else
      State(st.rows[row.uid := PubRow(st.nextId, row.cols, None)], st.nextId + 1, st.created + 1, st.updated)
  }

  function AllUpserted(st: State, rows: seq<KeptRow>): State {
    if rows == [] then st else Upserted(AllUpserted(st, rows[..|rows| - 1]), rows[|rows| - 1])
  }

  // ---------------------------------------------------------------- ascending ids

  ghost predicate StrictlyAscending(s: seq<nat>) { forall i, j :: 0 <= i < j < |s| ==> s[i] < s[j] }

  ghost predicate IsLeast(m: nat, s: set<nat>) { m in s && forall x :: x in s ==> m <= x }

  lemma {:induction false} FindLeast(s: set<nat>) returns (m: nat)
    requires s != {}
    ensures IsLeast(m, s)
  {
    m :| m in s;
    var below := set x | x in s && x < m;
    if x :| x in below {
      assert below < s by { assert m in s && m !in below; }
      var y := FindLeast(below);
      forall z | z in s ensures y <= z { assert z < m ==> z in below; }
      m := y;
    } else {
      forall z | z in s ensures m <= z { assert z < m ==> z in below; }
    }
  }

  lemma LeastExists(s: set<nat>)
    requires s != {}
    ensures exists m :: IsLeast(m, s)
  {
    var m := FindLeast(s);
  }

  function Least(s: set<nat>): (m: nat)
    requires s != {}
    ensures m in s && forall x :: x in s ==> m <= x
  {
    LeastExists(s);
    assert exists m :: m in s && forall x :: x in s ==> m <= x by { var m :| IsLeast(m, s); }
    var m :| m in s && forall x :: x in s ==> m <= x;
    m
  }

  function Ascending(s: set<nat>): seq<nat> {
    if s == {} then [] else [Least(s)] + Ascending(s - {Least(s)})
  }

  lemma {:induction false} AscendingMembers(s: set<nat>, x: nat)
    ensures x in Ascending(s) <==> x in s
  {
    if s == {} {
    } else {
      AscendingMembers(s - {Least(s)}, x);
    }
  }

  lemma {:induction false} AscendingAscends(s: set<nat>)
    ensures StrictlyAscending(Ascending(s))
  {
    if s == {} {
    } else {
      var rest := Ascending(s - {Least(s)});
      AscendingAscends(s - {Least(s)});
      forall j | 0 <= j < |rest| ensures Least(s) < rest[j] { AscendingMembers(s - {Least(s)}, rest[j]); }
    }
  }

  /** There is one ascending list of given ids. */
  lemma {:induction false} AscendingIsUnique(a: seq<nat>, s: set<nat>)
    requires StrictlyAscending(a) && forall x :: x in a <==> x in s
    ensures a == Ascending(s)
  {
    if a == [] {
      assert forall x :: x !in s;
    } else {
      assert a[0] in s;
      assert Least(s) in a;
      assert Least(s) == a[0];
      var rest := s - {a[0]};
      assert a == [a[0]] + a[1..];
      forall x ensures x in a[1..] <==> x in rest {
        if x in a[1..] { assert x in a; }
        if x in rest { assert x in a; }
      }
      AscendingIsUnique(a[1..], rest);
    }
  }

  // ---------------------------------------------------------------- pages

  function Above(raw: RawTable, legislature: int, lastId: nat): set<nat> {
    set i | i in raw && raw[i].legislature == legislature && i > lastId
  }

  function Page(raw: RawTable, legislature: int, lastId: nat, size: nat): seq<nat> {
    var ids := Ascending(Above(raw, legislature, lastId));
    ids[..Min(size, |ids|)]
  }

  function Rows(raw: RawTable, ids: seq<nat>): seq<RawAmendment>
    requires forall i :: i in ids ==> i in raw
  {
    seq(|ids|, k requires 0 <= k < |ids| => assert ids[k] in ids; raw[ids[k]])
  }

  /** Every amendment of the legislature, by ascending id. */
  function Selected(raw: RawTable, legislature: int): seq<RawAmendment> {
    var ids := Ascending(Above(raw, legislature, 0));
    assert forall i :: i in ids ==> i in raw by { forall i | i in ids { AscendingMembers(Above(raw, legislature, 0), i); } }
    Rows(raw, ids)
  }

  lemma PageMembers(raw: RawTable, legislature: int, lastId: nat, size: nat)
    ensures Distinct(Page(raw, legislature, lastId, size))
    ensures forall i :: i in Page(raw, legislature, lastId, size) ==> i in raw && i in Above(raw, legislature, lastId)
  {
    var s := Above(raw, legislature, lastId);
    AscendingAscends(s);
    forall i | i in Page(raw, legislature, lastId, size) ensures i in s { AscendingMembers(s, i); }
  }

  lemma SuffixIsAbove(s: set<nat>, k: nat, above: set<nat>)
    requires 0 < k <= |Ascending(s)|
    requires forall x :: x in above <==> x in s && x > Ascending(s)[k - 1]
    ensures Ascending(s)[k..] == Ascending(above)
  {
    var ids := Ascending(s);
    AscendingAscends(s);
    forall x ensures x in ids[k..] <==> x in above {
      AscendingMembers(s, x);
      if x in ids[k..] {
        var j :| 0 <= j < |ids| - k && ids[k..][j] == x;
        assert ids[k + j] == x && ids[k - 1] < ids[k + j];
      }
      if x in above {
        var j :| 0 <= j < |ids| && ids[j] == x;
        assert j >= k && ids[k..][j - k] == x;
      }
    }
    AscendingIsUnique(ids[k..], above);
  }

  /** What follows a page starts right after its last id. */
  lemma PageThenRest(raw: RawTable, legislature: int, lastId: nat, size: nat)
    requires Page(raw, legislature, lastId, size) != []
    ensures var page := Page(raw, legislature, lastId, size);
            && Ascending(Above(raw, legislature, lastId)) == page + Ascending(Above(raw, legislature, page[|page| - 1]))
            && Above(raw, legislature, page[|page| - 1]) < Above(raw, legislature, lastId)
  {
    var s := Above(raw, legislature, lastId);
    var page := Page(raw, legislature, lastId, size);
    var last := page[|page| - 1];
    var above := Above(raw, legislature, last);
    AscendingMembers(s, last);
    assert last == Ascending(s)[|page| - 1] && last in Ascending(s);
    SuffixIsAbove(s, |page|, above);
    assert last in s && last !in above && above <= s;
  }

  lemma EmptyPage(raw: RawTable, legislature: int, lastId: nat, size: nat)
    requires size > 0 && Page(raw, legislature, lastId, size) == []
    ensures Ascending(Above(raw, legislature, lastId)) == []
  {
  }

  ghost predicate NoRepeatedUid(rows: seq<KeptRow>) {
    forall i, j :: 0 <= i < j < |rows| ==> rows[i].uid != rows[j].uid
  }

  ghost predicate NoRepeatedAmendment(page: seq<RawAmendment>) {
    forall i, j :: 0 <= i < j < |page| ==> page[i].uid != page[j].uid
  }

  lemma {:induction false} KeptRowIsFromPage(page: seq<RawAmendment>, l: Lookups, k: nat)
    requires k < |KeptRows(page, l)|
    ensures exists i :: 0 <= i < |page| && page[i].uid == KeptRows(page, l)[k].uid
  {
    var init, last := page[..|page| - 1], page[|page| - 1];
    if k < |KeptRows(init, l)| {
      KeptRowIsFromPage(init, l, k);
      var i :| 0 <= i < |init| && init[i].uid == KeptRows(init, l)[k].uid;
      assert page[i].uid == KeptRows(page, l)[k].uid;
    } else {
      assert page[|page| - 1].uid == KeptRows(page, l)[k].uid;
    }
  }

  /** The statement of a page never meets the same row twice. */
  lemma {:induction false} KeptRowsAreDistinct(page: seq<RawAmendment>, l: Lookups)
    requires NoRepeatedAmendment(page)
    ensures NoRepeatedUid(KeptRows(page, l))
  {
    if page == [] {
    } else {
      var init := page[..|page| - 1];
      KeptRowsAreDistinct(init, l);
      forall k | 0 <= k < |KeptRows(init, l)| ensures KeptRows(init, l)[k].uid != page[|page| - 1].uid {
        KeptRowIsFromPage(init, l, k);
      }
    }
  }

  lemma {:induction false} KeptRowsAppend(a: seq<RawAmendment>, b: seq<RawAmendment>, l: Lookups)
    ensures KeptRows(a + b, l) == KeptRows(a, l) + KeptRows(b, l)
  {
    if b == [] {
      assert a + b == a;
    } else {
      assert (a + b)[..|a + b| - 1] == a + b[..|b| - 1];
      KeptRowsAppend(a, b[..|b| - 1], l);
    }
  }

  lemma {:induction false} UpsertAppend(st: State, a: seq<KeptRow>, b: seq<KeptRow>)
    ensures AllUpserted(st, a + b) == AllUpserted(AllUpserted(st, a), b)
  {
    if b == [] {
      assert a + b == a;
    } else {
      assert (a + b)[..|a + b| - 1] == a + b[..|b| - 1];
      UpsertAppend(st, a, b[..|b| - 1]);
    }
  }

  // ---------------------------------------------------------------- the projection

  /** `visited` and what lies above `lastId` make up the whole selection. */
  ghost predicate Visited(raw: RawTable, legislature: int, lastId: nat, visited: seq<nat>) {
    && visited + Ascending(Above(raw, legislature, lastId)) == Ascending(Above(raw, legislature, 0))
    && forall i :: i in visited ==> i in raw
  }

  lemma FirstPage(raw: RawTable, legislature: int)
    ensures Visited(raw, legislature, 0, []) && Rows(raw, []) == []
  {
    assert [] + Ascending(Above(raw, legislature, 0)) == Ascending(Above(raw, legislature, 0));
  }

  lemma LastPage(raw: RawTable, legislature: int, lastId: nat, size: nat, visited: seq<nat>)
    requires size > 0 && Page(raw, legislature, lastId, size) == [] && Visited(raw, legislature, lastId, visited)
    ensures Rows(raw, visited) == Selected(raw, legislature)
  {
    EmptyPage(raw, legislature, lastId, size);
    assert visited == Ascending(Above(raw, legislature, 0));
  }

  lemma RowsOfPage(raw: RawTable, visited: seq<nat>, page: seq<nat>)
    requires ValidRaw(raw) && Distinct(page)
    requires (forall i :: i in visited ==> i in raw) && forall i :: i in page ==> i in raw
    ensures Rows(raw, visited + page) == Rows(raw, visited) + Rows(raw, page)
    ensures NoRepeatedAmendment(Rows(raw, page))
  {
    forall i, j | 0 <= i < j < |page| ensures Rows(raw, page)[i].uid != Rows(raw, page)[j].uid {
      assert page[i] in page && page[j] in page;
    }
  }

  lemma OnePageFurther(raw: RawTable, legislature: int, lastId: nat, size: nat, visited: seq<nat>)
    requires ValidRaw(raw) && Page(raw, legislature, lastId, size) != [] && Visited(raw, legislature, lastId, visited)
    ensures var page := Page(raw, legislature, lastId, size);
            && (forall i :: i in page ==> i in raw)
            && Visited(raw, legislature, page[|page| - 1], visited + page)
            && Above(raw, legislature, page[|page| - 1]) < Above(raw, legislature, lastId)
            && Rows(raw, visited + page) == Rows(raw, visited) + Rows(raw, page)
            && NoRepeatedAmendment(Rows(raw, page))
  {
    var page := Page(raw, legislature, lastId, size);
    PageMembers(raw, legislature, lastId, size);
    PageThenRest(raw, legislature, lastId, size);
    var rest := Ascending(Above(raw, legislature, page[|page| - 1]));
    assert visited + (page + rest) == (visited + page) + rest;
    RowsOfPage(raw, visited, page);
  }

  /** processed = created + updated + skipped. */
  lemma {:induction false} EveryKeptRowIsCounted(st: State, rows: seq<KeptRow>)
    ensures var after := AllUpserted(st, rows);
            after.created + after.updated == st.created + st.updated + |rows|
  {
    if rows == [] {
    } else {
      EveryKeptRowIsCounted(st, rows[..|rows| - 1]);
    }
  }

  /** `created` is by how many rows the table grew. */
  lemma {:induction false} CreatedIsGrowth(st: State, rows: seq<KeptRow>)
    ensures var after := AllUpserted(st, rows); |after.rows.Keys| - |st.rows.Keys| == after.created - st.created
  {
    if rows == [] {
    } else {
      var init := AllUpserted(st, rows[..|rows| - 1]);
      CreatedIsGrowth(st, rows[..|rows| - 1]);
      assert AllUpserted(st, rows).rows.Keys == init.rows.Keys + {rows[|rows| - 1].uid};
    }
  }

  class AmendmentProjection {
    var table: State
    var processed: nat
    var skipped: nat

    constructor (initial: State)
      ensures table == initial && processed == skipped == 0
    {
      table, processed, skipped := initial, 0, 0;
    }

    /** What a run over `seen`, from `start`, has done so far. */
    ghost predicate HasProjected(start: State, seen: seq<RawAmendment>, l: Lookups)
      reads this
    {
      && table == AllUpserted(start, KeptRows(seen, l))
      && processed == |seen|
      && skipped == |seen| - |KeptRows(seen, l)|
    }

    /** INSERT ... ON CONFLICT of one page, which a repeated uid would abort. */
    method Upsert(rows: seq<KeptRow>)
      requires NoRepeatedUid(rows)
      modifies this`table
      ensures table == AllUpserted(old(table), rows)
    {
      for k := 0 to |rows|
        invariant table == AllUpserted(old(table), rows[..k])
      {
        assert rows[..k + 1][..k] == rows[..k];
        table := Upserted(table, rows[k]);
      }
      assert rows[..|rows|] == rows;
    }

    method ProjectPage(page: seq<RawAmendment>, l: Lookups, ghost start: State, ghost seen: seq<RawAmendment>)
      requires NoRepeatedAmendment(page) && HasProjected(start, seen, l)
      modifies this
      ensures HasProjected(start, seen + page, l)
    {
      var rows: seq<KeptRow> := [];
      for k := 0 to |page|
        invariant table == old(table)
        invariant rows == KeptRows(page[..k], l) && |rows| <= k
        invariant processed == old(processed) + k && skipped == old(skipped) + k - |rows|
      {
        assert page[..k + 1][..k] == page[..k];
        processed := processed + 1;
        var a := page[k];
        if !Kept(a, l) {
          skipped := skipped + 1;
        } else {
          rows := rows + [KeptRow(a.uid, ColsOf(a, l))];
        }
      }
      assert page[..|page|] == page;
      KeptRowsAreDistinct(page, l);
      KeptRowsAppend(seen, page, l);
      UpsertAppend(start, KeptRows(seen, l), rows);
      if rows != [] {
        Upsert(rows);
      }
    }

    /** The whole run, for any page size, does what a single pass over all amendments would. */
    method ProjectAll(raw: RawTable, legislature: int, l: Lookups, size: nat)
      requires ValidRaw(raw) && size > 0 && processed == skipped == 0
      modifies this
      ensures HasProjected(old(table), Selected(raw, legislature), l)
      ensures processed == table.created - old(table).created + table.updated - old(table).updated + skipped
    {
      var lastId := 0;
      ghost var visited: seq<nat> := [];
      FirstPage(raw, legislature);
      while true
        invariant Visited(raw, legislature, lastId, visited)
        invariant HasProjected(old(table), Rows(raw, visited), l)
        decreases Above(raw, legislature, lastId)
      {
        var page := Page(raw, legislature, lastId, size);
        if page == [] {
          LastPage(raw, legislature, lastId, size, visited);
          EveryKeptRowIsCounted(old(table), KeptRows(Selected(raw, legislature), l));
          break;
        }
        OnePageFurther(raw, legislature, lastId, size, visited);
        ProjectPage(Rows(raw, page), l, old(table), Rows(raw, visited));
        visited := visited + page;
        lastId := page[|page| - 1];
      }
    }
  }

  lemma SelectedMembers(raw: RawTable, legislature: int)
    requires 0 !in raw
    ensures forall a :: a in Selected(raw, legislature) <==> exists i :: i in raw && raw[i] == a && a.legislature == legislature
  {
    var s := Above(raw, legislature, 0);
    var ids := Ascending(s);
    forall i ensures i in ids <==> i in s { AscendingMembers(s, i); }
    forall a ensures a in Selected(raw, legislature) <==> exists i :: i in raw && raw[i] == a && a.legislature == legislature {
      if a in Selected(raw, legislature) {
        var k :| 0 <= k < |ids| && Rows(raw, ids)[k] == a;
        assert ids[k] in ids && raw[ids[k]] == a;
      }
      if i :| i in raw && raw[i] == a && a.legislature == legislature {
        assert i in ids;
        var k :| 0 <= k < |ids| && ids[k] == i;
        assert Rows(raw, ids)[k] == a;
      }
    }
  }

  /** The amendments visited are those of the legislature, each exactly once. */
  lemma VisitsEachOnce(raw: RawTable, legislature: int)
    requires ValidRaw(raw)
    ensures NoRepeatedAmendment(Selected(raw, legislature))
    ensures forall a :: a in Selected(raw, legislature) <==> exists i :: i in raw && raw[i] == a && a.legislature == legislature
  {
    var s := Above(raw, legislature, 0);
    var ids := Ascending(s);
    AscendingAscends(s);
    forall i ensures i in ids <==> i in s { AscendingMembers(s, i); }
    RowsOfPage(raw, [], ids);
    SelectedMembers(raw, legislature);
  }

  /** What a run leaves in a row: its own columns when it kept the amendment; id and article link never move. */
  lemma {:induction false} RowAfter(st: State, rows: seq<KeptRow>, uid: string)
    ensures var after := AllUpserted(st, rows);
            && (uid in after.rows <==> uid in st.rows || exists r :: r in rows && r.uid == uid)
            && (uid in st.rows ==> after.rows[uid].id == st.rows[uid].id)
            && (uid in st.rows ==> after.rows[uid].lawArticleId == st.rows[uid].lawArticleId)
            && (uid in after.rows ==>
                  || (uid in st.rows && after.rows[uid] == st.rows[uid])
                  || (exists r :: r in rows && r.uid == uid && after.rows[uid].cols == r.cols))
  {
    if rows == [] {
    } else {
      var init, last := rows[..|rows| - 1], rows[|rows| - 1];
      RowAfter(st, init, uid);
      assert last in rows && forall r :: r in rows <==> r in init || r == last;
    }
  }

  lemma {:induction false} KeptRowsAreFromPage(page: seq<RawAmendment>, l: Lookups, r: KeptRow)
    requires r in KeptRows(page, l)
    ensures exists a :: a in page && Kept(a, l) && r == KeptRow(a.uid, ColsOf(a, l))
  {
    var init, last := page[..|page| - 1], page[|page| - 1];
    assert last in page && forall a :: a in init ==> a in page;
    if r in KeptRows(init, l) {
      KeptRowsAreFromPage(init, l, r);
    }
  }

  lemma StrangerRowStays(st: State, page: seq<RawAmendment>, l: Lookups, uid: string)
    requires forall a :: a in page ==> a.uid != uid
    ensures var after := AllUpserted(st, KeptRows(page, l));
            (uid in after.rows <==> uid in st.rows) && (uid in st.rows ==> after.rows[uid] == st.rows[uid])
  {
    RowAfter(st, KeptRows(page, l), uid);
    forall r | r in KeptRows(page, l) ensures r.uid != uid { KeptRowsAreFromPage(page, l, r); }
  }

  /** Amendment by amendment: a kept one gets its own columns, a skipped one changes nothing of its row. */
  lemma {:induction false} EachAmendmentIsProjected(st: State, page: seq<RawAmendment>, l: Lookups, a: RawAmendment)
    requires NoRepeatedAmendment(page) && a in page
    ensures var after := AllUpserted(st, KeptRows(page, l));
            && (Kept(a, l) ==>
                  && a.uid in after.rows && after.rows[a.uid].cols == ColsOf(a, l)
                  && after.rows[a.uid].lawArticleId == if a.uid in st.rows then st.rows[a.uid].lawArticleId else None)
            && (!Kept(a, l) ==>
                  (a.uid in after.rows <==> a.uid in st.rows) && (a.uid in st.rows ==> after.rows[a.uid] == st.rows[a.uid]))
  {
    var init, last := page[..|page| - 1], page[|page| - 1];
    assert last in page;
    if a == last {
      forall b | b in init ensures b.uid != a.uid {
        var k :| 0 <= k < |init| && init[k] == b;
        assert page[k].uid != page[|page| - 1].uid;
      }
      StrangerRowStays(st, init, l, a.uid);
    } else {
      EachAmendmentIsProjected(st, init, l, a);
      var k :| 0 <= k < |init| && init[k] == a;
      assert page[k].uid != page[|page| - 1].uid;
    }
  }

  /** What the dictionary gives for a uid that may be missing. */
  ghost predicate Gives<K>(m: map<K, int>, k: Option<K>, id: Option<int>) {
    (id.Some? <==> k.Some? && k.value in m) && (id.Some? ==> id.value == m[k.value])
  }

  /** Which amendments are kept, and which dictionary fills each column of their row. */
  lemma KeptAmendmentHasItsColumns(st: State, page: seq<RawAmendment>, l: Lookups, a: RawAmendment)
    requires NoRepeatedAmendment(page) && a in page
    ensures Kept(a, l) <==> a.dossierUid.Some? && a.dossierUid.value in l.laws
                            && (a.byDeputy ==> a.deputyUid.Some? && a.deputyUid.value in l.deputies)
    ensures Kept(a, l) ==>
              && a.uid in AllUpserted(st, KeptRows(page, l)).rows
              && var cols := AllUpserted(st, KeptRows(page, l)).rows[a.uid].cols;
              && cols.lawId == l.laws[a.dossierUid.value] && cols.content == a.content
              && Gives(l.readings, Some((cols.lawId, a.texteUid)), cols.readingId)
              && Gives(l.deputies, a.deputyUid, cols.deputyId)
              && Gives(l.groups, a.groupUid, cols.groupId)
  {
    EachAmendmentIsProjected(st, page, l, a);
  }

  // ---------------------------------------------------------------- the same rows again

  function LastRow(rows: seq<KeptRow>, uid: string): Option<KeptRow> {
    if rows == [] then None
    else if rows[|rows| - 1].uid == uid then Some(rows[|rows| - 1]) else LastRow(rows[..|rows| - 1], uid)
  }

  lemma {:induction false} LastRowStays(st: State, rows: seq<KeptRow>, uid: string)
    ensures var after, last := AllUpserted(st, rows), LastRow(rows, uid);
            && (uid in after.rows <==> uid in st.rows || last.Some?)
            && (last.Some? ==> after.rows[uid].cols == last.value.cols)
            && (last.None? && uid in st.rows ==> after.rows[uid] == st.rows[uid])
            && (uid in st.rows ==> after.rows[uid] == st.rows[uid].(cols := after.rows[uid].cols))
  {
    if rows == [] {
    } else {
      LastRowStays(st, rows[..|rows| - 1], uid);
    }
  }

  lemma {:induction false} KnownCreateNothing(st: State, rows: seq<KeptRow>)
    requires forall r :: r in rows ==> r.uid in st.rows
    ensures AllUpserted(st, rows).created == st.created && AllUpserted(st, rows).rows.Keys == st.rows.Keys
  {
    if rows == [] {
    } else {
      assert rows[|rows| - 1] in rows && forall r :: r in rows[..|rows| - 1] ==> r in rows;
      KnownCreateNothing(st, rows[..|rows| - 1]);
    }
  }

  /** The same rows upserted again, over a table with the rows they left, change none and create none. */
  lemma UpsertAgain(st: State, rows: seq<KeptRow>, later: State)
    requires later.rows == AllUpserted(st, rows).rows
    ensures AllUpserted(later, rows).rows == later.rows && AllUpserted(later, rows).created == later.created
  {
    forall r | r in rows ensures r.uid in later.rows { RowAfter(st, rows, r.uid); }
    KnownCreateNothing(later, rows);
    forall uid | uid in later.rows ensures AllUpserted(later, rows).rows[uid] == later.rows[uid] {
      LastRowStays(st, rows, uid);
      LastRowStays(later, rows, uid);
    }
  }
}

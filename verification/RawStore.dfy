/**
 The `raw` schema as a store of rows addressed by table and natural key, with the
 meaning of INSERT ... ON CONFLICT (key) DO UPDATE for one row and for many.
 Columns that form the key are not repeated among the values of a row.
 */
module RawStore {
  import opened Prelude

  datatype TableName =
    | Deputy | PoliticalGroup | Law | LawText | Debate | AgendaItem | Amendment | Ballot
    | Mandate | GovernmentRole | LawStage | LawTexte | LawArticle | DebatePoint | Intervention
    | AgendaPoint | BallotGroup | BallotVote

  /** The root tables, whose `updated_at` only moves with the content. */
  predicate Tracked(t: TableName) {
    t.Deputy? || t.PoliticalGroup? || t.Law? || t.LawText? || t.Debate? || t.AgendaItem? || t.Amendment? || t.Ballot?
  }

  datatype Value = Null | Text(text: string) | Number(n: int) | Day(day: int) | Flag(flag: bool) | Ref(id: nat)

  type Cols = map<string, Value>

  /** Bookkeeping columns a row may name without being content. */
  const TRACKING := {"created_at", "updated_at", "ingestion_run_id", "s3_key"}

  /** A column that was never written is NULL. */
  function Get(cols: Cols, c: string): Value { if c in cols then cols[c] else Null }

  datatype Address = Address(table: TableName, key: seq<string>)

  datatype Row = Row(id: nat, cols: Cols, createdAt: int, updatedAt: int)

  datatype Store = Store(rows: map<Address, Row>, nextId: map<TableName, nat>)

  datatype Write = Write(at: Address, values: Cols)

  /** IS DISTINCT FROM over the content columns that the row names. */
  predicate Changed(cols: Cols, values: Cols) {
    exists c :: c in values && c !in TRACKING && Get(cols, c) != values[c]
  }

  function NextId(s: Store, t: TableName): nat { if t in s.nextId then s.nextId[t] else 1 }

  /** The row at `w.at` once `w` has been written over `s`; `id` serves an insert only. */
  function Landed(s: Store, w: Write, id: nat, now: int): Row {
    if w.at in s.rows then
      var row := s.rows[w.at];
      row.(cols := row.cols + w.values,
           updatedAt := if Tracked(w.at.table) && Changed(row.cols, w.values) then now else row.updatedAt)
    else Row(id, w.values, now, now)
  }

  /** Single-row upsert. The sequence of the table advances even on a conflict. */
  function Apply(s: Store, w: Write, now: int): Store {
    var id := NextId(s, w.at.table);
    Store(s.rows[w.at := Landed(s, w, id, now)], s.nextId[w.at.table := id + 1])
  }

  function ApplyAll(s: Store, ws: seq<Write>, now: int): Store {
    if ws == [] then s else Apply(ApplyAll(s, ws[..|ws| - 1], now), ws[|ws| - 1], now)
  }

  // ---------------------------------------------------------------- multi-row statements

  /** Refused by SQLAlchemy when rows name different columns, by PostgreSQL when a key repeats. */
  datatype StatementError = NoRows | MixedColumns | RepeatedKey

  predicate SameColumns(ws: seq<Write>) {
    forall i, j :: 0 <= i < |ws| && 0 <= j < |ws| ==> ws[i].values.Keys == ws[j].values.Keys
  }

  predicate DistinctKeys(ws: seq<Write>) {
    forall i, j :: 0 <= i < j < |ws| ==> ws[i].at != ws[j].at
  }

  predicate OneTable(ws: seq<Write>, t: TableName) {
    forall w :: w in ws ==> w.at.table == t
  }

  function IndexOf(ws: seq<Write>, a: Address): (i: nat)
    requires exists w :: w in ws && w.at == a
    ensures i < |ws| && ws[i].at == a
  {
    if ws[0].at == a then 0 else 1 + IndexOf(ws[1..], a)
  }

  function Addresses(ws: seq<Write>): set<Address> { set w | w in ws :: w.at }

  function BulkRow(s: Store, t: TableName, ws: seq<Write>, now: int, a: Address): Row
    requires a in s.rows || a in Addresses(ws)
  {
    if a in Addresses(ws) then Landed(s, ws[IndexOf(ws, a)], NextId(s, t) + IndexOf(ws, a), now) else s.rows[a]
  }

  /** All rows land at once, each judged against the table as it was before the statement. */
  function Bulk(s: Store, t: TableName, ws: seq<Write>, now: int): Store {
    Store(
      map a | a in s.rows.Keys + Addresses(ws) :: BulkRow(s, t, ws, now, a),
      s.nextId[t := NextId(s, t) + |ws|])
  }

  lemma {:induction false} IdsAdvance(s: Store, ws: seq<Write>, now: int, t: TableName)
    requires OneTable(ws, t)
    ensures NextId(ApplyAll(s, ws, now), t) == NextId(s, t) + |ws|
    ensures ApplyAll(s, ws, now).nextId == if ws == [] then s.nextId else s.nextId[t := NextId(s, t) + |ws|]
  {
    if ws == [] {
    } else {
      var init, last := ws[..|ws| - 1], ws[|ws| - 1];
      assert last in ws && forall w :: w in init ==> w in ws;
      IdsAdvance(s, init, now, t);
    }
  }

  lemma {:induction false} UnnamedRowStays(s: Store, ws: seq<Write>, now: int, a: Address)
    requires forall w :: w in ws ==> w.at != a
    ensures a in ApplyAll(s, ws, now).rows <==> a in s.rows
    ensures a in s.rows ==> ApplyAll(s, ws, now).rows[a] == s.rows[a]
  {
    if ws == [] {
    } else {
      var init, last := ws[..|ws| - 1], ws[|ws| - 1];
      assert last in ws && forall w :: w in init ==> w in ws;
      UnnamedRowStays(s, init, now, a);
    }
  }

  lemma OtherRowStays(s: Store, w: Write, now: int, a: Address)
    requires w.at != a && a in s.rows
    ensures a in Apply(s, w, now).rows && Apply(s, w, now).rows[a] == s.rows[a]
  {
  }

  /** A row whose key no earlier write named lands as if they had not been. */
  lemma LandsAfter(s: Store, init: seq<Write>, w: Write, now: int)
    requires OneTable(init, w.at.table) && forall v :: v in init ==> v.at != w.at
    ensures w.at in Apply(ApplyAll(s, init, now), w, now).rows
    ensures Apply(ApplyAll(s, init, now), w, now).rows[w.at] == Landed(s, w, NextId(s, w.at.table) + |init|, now)
  {
    IdsAdvance(s, init, now, w.at.table);
    UnnamedRowStays(s, init, now, w.at);
  }

  /** With distinct keys each row of a run lands as if it were alone. */
  lemma {:induction false} LandsAlone(s: Store, ws: seq<Write>, now: int, t: TableName, i: nat)
    requires DistinctKeys(ws) && OneTable(ws, t) && i < |ws|
    ensures ws[i].at in ApplyAll(s, ws, now).rows
    ensures ApplyAll(s, ws, now).rows[ws[i].at] == Landed(s, ws[i], NextId(s, t) + i, now)
    decreases |ws|
  {
    var init, last := ws[..|ws| - 1], ws[|ws| - 1];
    assert last in ws && forall w :: w in init ==> w in ws;
    if i < |init| {
      assert init[i] == ws[i] && ws[i].at != last.at;
      LandsAlone(s, init, now, t, i);
      OtherRowStays(ApplyAll(s, init, now), last, now, ws[i].at);
    } else {
      LandsAfter(s, init, last, now);
    }
  }

  lemma BulkRowIsFold(s: Store, t: TableName, ws: seq<Write>, now: int, a: Address)
    requires ws != [] && DistinctKeys(ws) && OneTable(ws, t)
    ensures a in ApplyAll(s, ws, now).rows <==> a in s.rows || a in Addresses(ws)
    ensures a in s.rows || a in Addresses(ws) ==> BulkRow(s, t, ws, now, a) == ApplyAll(s, ws, now).rows[a]
  {
    if a in Addresses(ws) {
      var i := IndexOf(ws, a);
      LandsAlone(s, ws, now, t, i);
    } else {
      forall w | w in ws ensures w.at != a { assert w.at in Addresses(ws); }
      UnnamedRowStays(s, ws, now, a);
    }
  }

  /** With distinct keys, one multi-row statement does what its rows do one after the other. */
  lemma BulkIsFold(s: Store, t: TableName, ws: seq<Write>, now: int)
    requires ws != [] && DistinctKeys(ws) && OneTable(ws, t)
    ensures Bulk(s, t, ws, now) == ApplyAll(s, ws, now)
  {
    var b, f := Bulk(s, t, ws, now), ApplyAll(s, ws, now);
    forall a ensures (a in b.rows <==> a in f.rows) && (a in b.rows ==> b.rows[a] == f.rows[a]) {
      BulkRowIsFold(s, t, ws, now, a);
    }
    assert b.rows == f.rows;
    IdsAdvance(s, ws, now, t);
  }

  /** The same rows up to the ids that the inserted ones received. */
  ghost predicate SameButFreshIds(before: Store, s: Store, s': Store) {
    && s.rows.Keys == s'.rows.Keys
    && (forall a :: a in s.rows ==> s.rows[a].(id := 0) == s'.rows[a].(id := 0))
    && (forall a :: a in s.rows && a in before.rows ==> s.rows[a] == s'.rows[a])
  }

  lemma SameRowForKey(ws: seq<Write>, ws': seq<Write>, a: Address)
    requires multiset(ws) == multiset(ws') && DistinctKeys(ws)
    requires a in Addresses(ws) && a in Addresses(ws')
    ensures ws[IndexOf(ws, a)] == ws'[IndexOf(ws', a)]
  {
    var i, j := IndexOf(ws, a), IndexOf(ws', a);
    assert ws'[j] in multiset(ws);
    var k :| 0 <= k < |ws| && ws[k] == ws'[j];
    assert ws[k].at == ws[i].at;
  }

  lemma CountsOnce(ws: seq<Write>, k: nat)
    requires DistinctKeys(ws) && k < |ws|
    ensures multiset(ws)[ws[k]] == 1
  {
    assert ws == ws[..k] + [ws[k]] + ws[k + 1..];
    assert ws[k] !in ws[..k] && ws[k] !in ws[k + 1..];
  }

  lemma SamePool(ws: seq<Write>, ws': seq<Write>)
    requires multiset(ws) == multiset(ws') && DistinctKeys(ws)
    ensures forall w :: w in ws <==> w in ws'
    ensures Addresses(ws) == Addresses(ws')
    ensures DistinctKeys(ws')
  {
    forall w ensures w in ws <==> w in ws' { assert w in multiset(ws) <==> w in multiset(ws'); }
    forall i, j | 0 <= i < j < |ws'| ensures ws'[i].at != ws'[j].at {
      if ws'[i].at == ws'[j].at {
        assert ws'[i] in ws' && ws'[j] in ws';
        var k :| 0 <= k < |ws| && ws[k] == ws'[i];
        var l :| 0 <= l < |ws| && ws[l] == ws'[j];
        RepeatCounts(ws', i, j);
        CountsOnce(ws, k);
        assert false;
      }
    }
  }

  /** The order of the rows of a statement only decides which fresh id goes to which inserted row. */
  lemma BulkIgnoresOrder(s: Store, t: TableName, ws: seq<Write>, ws': seq<Write>, now: int)
    requires multiset(ws) == multiset(ws') && DistinctKeys(ws)
    ensures SameButFreshIds(s, Bulk(s, t, ws, now), Bulk(s, t, ws', now))
    ensures DistinctKeys(ws')
  {
    SamePool(ws, ws');
    var b, b' := Bulk(s, t, ws, now), Bulk(s, t, ws', now);
    forall a | a in Addresses(ws) ensures ws[IndexOf(ws, a)] == ws'[IndexOf(ws', a)] {
      SameRowForKey(ws, ws', a);
    }
    forall a | a in s.rows || a in Addresses(ws)
      ensures BulkRow(s, t, ws, now, a).(id := 0) == BulkRow(s, t, ws', now, a).(id := 0)
      ensures a in s.rows ==> BulkRow(s, t, ws, now, a) == BulkRow(s, t, ws', now, a)
    { }
  }

  // ---------------------------------------------------------------- running the same writes again

  ghost predicate SameWrite(w: Write, w': Write) {
    && w.at == w'.at && w.values.Keys == w'.values.Keys
    && forall c :: c in w.values && c !in TRACKING ==> w.values[c] == w'.values[c]
  }

  /** Two runs write the same things when they differ by bookkeeping values at most. */
  ghost predicate SameWrites(ws: seq<Write>, ws': seq<Write>) {
    |ws| == |ws'| && forall i :: 0 <= i < |ws| ==> SameWrite(ws[i], ws'[i])
  }

  lemma SameWritesJoin(a: seq<Write>, a': seq<Write>, b: seq<Write>, b': seq<Write>)
    requires SameWrites(a, a') && SameWrites(b, b')
    ensures SameWrites(a + b, a' + b')
  {
    forall i | 0 <= i < |a + b| ensures SameWrite((a + b)[i], (a' + b')[i]) {
      if i >= |a| { assert (a + b)[i] == b[i - |a|] && (a' + b')[i] == b'[i - |a|]; }
    }
  }

  /** Everything written at `a`, later writes over earlier ones. */
  function Written(ws: seq<Write>, a: Address): Cols {
    if ws == [] then map[]
    else
      var before, last := Written(ws[..|ws| - 1], a), ws[|ws| - 1];
      if last.at == a then before + last.values else before
  }

  function Before(s: Store, a: Address): Cols { if a in s.rows then s.rows[a].cols else map[] }

  lemma {:induction false} RowPresent(s: Store, ws: seq<Write>, now: int, a: Address)
    ensures var s' := ApplyAll(s, ws, now);
            && (a in s'.rows <==> a in s.rows || exists w :: w in ws && w.at == a)
            && (a in s.rows ==> s'.rows[a].id == s.rows[a].id && s'.rows[a].createdAt == s.rows[a].createdAt)
  {
    if ws == [] {
    } else {
      var init, last := ws[..|ws| - 1], ws[|ws| - 1];
      RowPresent(s, init, now, a);
      assert last in ws && forall w :: w in ws <==> w in init || w == last;
    }
  }

  lemma WrittenStep(s: Store, w: Write, now: int, a: Address)
    ensures Before(Apply(s, w, now), a) == if w.at == a then Before(s, a) + w.values else Before(s, a)
    ensures a in Apply(s, w, now).rows <==> a in s.rows || w.at == a
  {
    assert map[] + w.values == w.values;
  }

  lemma {:induction false} RowWritten(s: Store, ws: seq<Write>, now: int, a: Address)
    ensures Before(ApplyAll(s, ws, now), a) == Before(s, a) + Written(ws, a)
    ensures a !in ApplyAll(s, ws, now).rows ==> Written(ws, a) == map[]
  {
    if ws == [] {
      assert Before(s, a) + map[] == Before(s, a);
    } else {
      var init, last := ws[..|ws| - 1], ws[|ws| - 1];
      RowWritten(s, init, now, a);
      WrittenStep(ApplyAll(s, init, now), last, now, a);
      assert Before(s, a) + Written(init, a) + last.values == Before(s, a) + (Written(init, a) + last.values);
    }
  }

  /** Fate of one row over a run: only named columns move, and an existing row keeps its identity. */
  lemma RowAfter(s: Store, ws: seq<Write>, now: int, a: Address)
    ensures var s' := ApplyAll(s, ws, now);
            && (a in s'.rows <==> a in s.rows || exists w :: w in ws && w.at == a)
            && (a in s'.rows ==> s'.rows[a].cols == Before(s, a) + Written(ws, a))
            && (a in s.rows ==> s'.rows[a].id == s.rows[a].id && s'.rows[a].createdAt == s.rows[a].createdAt)
            && (a !in s'.rows ==> Written(ws, a) == map[])
  {
    RowPresent(s, ws, now, a);
    RowWritten(s, ws, now, a);
  }

  /** The row that `w` addresses has every value that `w` writes. */
  ghost predicate Holds(s: Store, w: Write) {
    w.at in s.rows && forall c :: c in w.values ==> Get(s.rows[w.at].cols, c) == w.values[c]
  }

  /** A write that no later one overwrites is what its row holds in the end. */
  lemma {:induction false} LastWriteHolds(s: Store, ws: seq<Write>, now: int, i: nat)
    requires i < |ws| && forall j :: i < j < |ws| ==> ws[j].at != ws[i].at
    ensures Holds(ApplyAll(s, ws, now), ws[i])
    decreases |ws|
  {
    var n := |ws| - 1;
    if i < n {
      assert ws[..n][i] == ws[i] && ws[n].at != ws[i].at;
      LastWriteHolds(s, ws[..n], now, i);
      OtherRowStays(ApplyAll(s, ws[..n], now), ws[n], now, ws[i].at);
    }
  }

  /** Every row that no write addresses is as before. */
  ghost predicate OnlyMoves(s: Store, s': Store, addresses: Address -> bool) {
    forall a :: !addresses(a) ==> (a in s'.rows <==> a in s.rows) && (a in s.rows ==> s'.rows[a] == s.rows[a])
  }

  lemma {:induction false} WrittenAppend(a: seq<Write>, b: seq<Write>, at: Address)
    ensures Written(a + b, at) == Written(a, at) + Written(b, at)
  {
    if b == [] {
      assert a + b == a;
    } else {
      var init, last := b[..|b| - 1], b[|b| - 1];
      assert (a + b)[..|a + b| - 1] == a + init;
      WrittenAppend(a, init, at);
      if last.at == at {
        assert Written(a, at) + Written(init, at) + last.values == Written(a, at) + (Written(init, at) + last.values);
      }
    }
  }

  lemma {:induction false} WrittenElsewhere(ws: seq<Write>, at: Address)
    requires forall w :: w in ws ==> w.at != at
    ensures Written(ws, at) == map[]
  {
    if ws == [] {
    } else {
      assert ws[|ws| - 1] in ws && forall w :: w in ws[..|ws| - 1] ==> w in ws;
      WrittenElsewhere(ws[..|ws| - 1], at);
    }
  }

  /** Equal but for bookkeeping. */
  ghost predicate SameValues(cols: Cols, cols': Cols) {
    cols.Keys == cols'.Keys && forall c :: c in cols && c !in TRACKING ==> cols[c] == cols'[c]
  }

  lemma {:induction false} WrittenAgain(ws: seq<Write>, ws': seq<Write>, a: Address)
    requires SameWrites(ws, ws')
    ensures SameValues(Written(ws, a), Written(ws', a))
  {
    if ws == [] {
    } else {
      WrittenAgain(ws[..|ws| - 1], ws'[..|ws| - 1], a);
      assert SameWrite(ws[|ws| - 1], ws'[|ws| - 1]);
    }
  }

  /** No id, creation time or content column changed. */
  ghost predicate SameRow(r: Row, r': Row) {
    r.id == r'.id && r.createdAt == r'.createdAt && forall c :: c !in TRACKING ==> Get(r.cols, c) == Get(r'.cols, c)
  }

  /** No key gone or added, no row changed. */
  ghost predicate SameContent(s: Store, s': Store) {
    s.rows.Keys == s'.rows.Keys && forall a :: a in s.rows ==> SameRow(s.rows[a], s'.rows[a])
  }

  /** A row that a second run writes with the values it last got. */
  lemma RowWrittenAgain(s: Store, ws: seq<Write>, ws': seq<Write>, t1: int, t2: int, a: Address)
    requires a in ApplyAll(s, ws, t1).rows && SameValues(Written(ws, a), Written(ws', a))
    ensures var s1, s2 := ApplyAll(s, ws, t1), ApplyAll(ApplyAll(s, ws, t1), ws', t2);
            a in s2.rows && SameRow(s1.rows[a], s2.rows[a])
  {
    RowAfter(s, ws, t1, a);
    RowAfter(ApplyAll(s, ws, t1), ws', t2, a);
  }

  /** Saving again what was just saved, whatever the store and the writes, changes no content. */
  lemma SecondRunChangesNoContent(s: Store, ws: seq<Write>, ws': seq<Write>, t1: int, t2: int)
    requires SameWrites(ws, ws')
    ensures SameContent(ApplyAll(s, ws, t1), ApplyAll(ApplyAll(s, ws, t1), ws', t2))
    ensures forall w :: w in ws' ==> w.at in ApplyAll(s, ws, t1).rows
  {
    var s1 := ApplyAll(s, ws, t1);
    var s2 := ApplyAll(s1, ws', t2);
    forall w | w in ws' ensures w.at in s1.rows {
      var i :| 0 <= i < |ws'| && ws'[i] == w;
      assert SameWrite(ws[i], ws'[i]) && ws[i] in ws;
      RowAfter(s, ws, t1, w.at);
    }
    forall a ensures a in s1.rows <==> a in s2.rows { RowAfter(s1, ws', t2, a); }
    forall a | a in s1.rows ensures a in s2.rows && SameRow(s1.rows[a], s2.rows[a]) {
      WrittenAgain(ws, ws', a);
      RowWrittenAgain(s, ws, ws', t1, t2, a);
    }
  }

  lemma {:induction false} UnnamedIsUnwritten(ws: seq<Write>, a: Address, c: string)
    requires forall w :: w in ws && w.at == a ==> c !in w.values
    ensures c !in Written(ws, a)
  {
    if ws == [] {
    } else {
      var init, last := ws[..|ws| - 1], ws[|ws| - 1];
      assert last in ws;
      assert forall w :: w in init ==> w in ws;
      UnnamedIsUnwritten(init, a, c);
    }
  }

  /** Columns that no write names keep the value they had, on existing rows. */
  lemma UnnamedColumnsSurvive(s: Store, ws: seq<Write>, now: int, a: Address, c: string)
    requires a in s.rows && forall w :: w in ws && w.at == a ==> c !in w.values
    ensures a in ApplyAll(s, ws, now).rows
    ensures Get(ApplyAll(s, ws, now).rows[a].cols, c) == Get(s.rows[a].cols, c)
  {
    RowAfter(s, ws, now, a);
    UnnamedIsUnwritten(ws, a, c);
  }

  // ---------------------------------------------------------------- when updated_at moves

  /** Writes to the same tracked row agree on the content. */
  ghost predicate NoConflict(ws: seq<Write>) {
    forall i, j, c :: 0 <= i < |ws| && 0 <= j < |ws| && ws[i].at == ws[j].at && Tracked(ws[i].at.table)
                      && c in ws[i].values && c in ws[j].values && c !in TRACKING
                      ==> ws[i].values[c] == ws[j].values[c]
  }

  /** The tracked rows already hold what `ws` would write. */
  ghost predicate Settled(s: Store, ws: seq<Write>) {
    forall w :: w in ws && Tracked(w.at.table) ==> w.at in s.rows && !Changed(s.rows[w.at].cols, w.values)
  }

  ghost predicate SameTimes(s: Store, s': Store) {
    s.rows.Keys == s'.rows.Keys && forall a :: a in s.rows && Tracked(a.table) ==> s.rows[a].updatedAt == s'.rows[a].updatedAt
  }

  lemma {:induction false} LastValueWins(ws: seq<Write>, i: nat, c: string)
    requires NoConflict(ws) && i < |ws| && Tracked(ws[i].at.table) && c in ws[i].values && c !in TRACKING
    ensures c in Written(ws, ws[i].at) && Written(ws, ws[i].at)[c] == ws[i].values[c]
    decreases |ws|
  {
    var init, last := ws[..|ws| - 1], ws[|ws| - 1];
    if i < |ws| - 1 {
      assert init[i] == ws[i];
      LastValueWins(init, i, c);
    }
  }

  lemma SettledAfter(s: Store, ws: seq<Write>, ws': seq<Write>, now: int)
    requires NoConflict(ws) && SameWrites(ws, ws')
    ensures Settled(ApplyAll(s, ws, now), ws')
  {
    var s1 := ApplyAll(s, ws, now);
    forall w | w in ws' && Tracked(w.at.table) ensures w.at in s1.rows && !Changed(s1.rows[w.at].cols, w.values) {
      var i :| 0 <= i < |ws'| && ws'[i] == w;
      assert SameWrite(ws[i], w) && ws[i] in ws;
      RowAfter(s, ws, now, w.at);
      forall c | c in w.values && c !in TRACKING ensures Get(s1.rows[w.at].cols, c) == w.values[c] {
        LastValueWins(ws, i, c);
      }
    }
  }

  /** Writing what is already there moves no tracked time, and leaves it there. */
  lemma {:induction false} SettledStays(s: Store, ws: seq<Write>, all: seq<Write>, now: int)
    requires Settled(s, all) && (forall w :: w in ws ==> w in all) && (forall w :: w in ws ==> w.at in s.rows)
    ensures Settled(ApplyAll(s, ws, now), all) && SameTimes(s, ApplyAll(s, ws, now))
  {
    if ws == [] {
    } else {
      var init, last := ws[..|ws| - 1], ws[|ws| - 1];
      assert last in ws;
      assert forall w :: w in init ==> w in ws;
      SettledStays(s, init, all, now);
      var mid, end := ApplyAll(s, init, now), ApplyAll(s, ws, now);
      assert last.at in mid.rows;
      if Tracked(last.at.table) {
        assert !Changed(mid.rows[last.at].cols, last.values);
        forall c | c !in TRACKING ensures Get(end.rows[last.at].cols, c) == Get(mid.rows[last.at].cols, c) { }
      }
    }
  }

  lemma SecondRunMovesNoTime(s: Store, ws: seq<Write>, ws': seq<Write>, t1: int, t2: int)
    requires SameWrites(ws, ws') && NoConflict(ws)
    ensures SameTimes(ApplyAll(s, ws, t1), ApplyAll(ApplyAll(s, ws, t1), ws', t2))
  {
    SettledAfter(s, ws, ws', t1);
    SecondRunChangesNoContent(s, ws, ws', t1, t2);
    SettledStays(ApplyAll(s, ws, t1), ws', ws', t2);
  }

  /** An untouched time means that every write found its own content in place. */
  lemma {:induction false} StillTimeMeansAgreement(s: Store, ws: seq<Write>, now: int, a: Address)
    requires SameColumns(ws) && Tracked(a.table)
    requires a in s.rows && ApplyAll(s, ws, now).rows.Keys == s.rows.Keys && ApplyAll(s, ws, now).rows[a].updatedAt != now
    ensures forall w :: w in ws && w.at == a ==> !Changed(s.rows[a].cols, w.values)
    ensures forall c :: c !in TRACKING ==> Get(ApplyAll(s, ws, now).rows[a].cols, c) == Get(s.rows[a].cols, c)
  {
    if ws == [] {
    } else {
      var init, last := ws[..|ws| - 1], ws[|ws| - 1];
      forall b ensures b in ApplyAll(s, init, now).rows <==> b in s.rows {
        RowAfter(s, init, now, b);
        RowAfter(s, ws, now, b);
      }
      var mid := ApplyAll(s, init, now);
      StillTimeMeansAgreement(s, init, now, a);
    }
  }

  lemma SameColumnsAgain(ws: seq<Write>, ws': seq<Write>)
    requires SameWrites(ws, ws') && SameColumns(ws)
    ensures SameColumns(ws')
  {
    forall i, j | 0 <= i < |ws'| && 0 <= j < |ws'| ensures ws'[i].values.Keys == ws'[j].values.Keys {
      assert SameWrite(ws[i], ws'[i]) && SameWrite(ws[j], ws'[j]);
    }
  }

  /**
   When the rows of a run name the same columns, a second run with a later clock
   leaves every tracked time alone exactly when no two of its rows disagree about one key.
   */
  lemma TimesStayIffNoConflict(s: Store, ws: seq<Write>, ws': seq<Write>, t1: int, t2: int)
    requires SameWrites(ws, ws') && SameColumns(ws)
    requires forall a :: a in ApplyAll(s, ws, t1).rows ==> ApplyAll(s, ws, t1).rows[a].updatedAt < t2
    ensures SameTimes(ApplyAll(s, ws, t1), ApplyAll(ApplyAll(s, ws, t1), ws', t2)) <==> NoConflict(ws)
  {
    var s1 := ApplyAll(s, ws, t1);
    var s2 := ApplyAll(s1, ws', t2);
    SecondRunChangesNoContent(s, ws, ws', t1, t2);
    if NoConflict(ws) { SecondRunMovesNoTime(s, ws, ws', t1, t2); }
    if SameTimes(s1, s2) {
      forall i, j, c | 0 <= i < |ws| && 0 <= j < |ws| && ws[i].at == ws[j].at && Tracked(ws[i].at.table)
                       && c in ws[i].values && c in ws[j].values && c !in TRACKING
        ensures ws[i].values[c] == ws[j].values[c]
      {
        var a := ws[i].at;
        assert SameWrite(ws[i], ws'[i]) && SameWrite(ws[j], ws'[j]) && ws'[i] in ws' && ws'[j] in ws';
        SameColumnsAgain(ws, ws');
        StillTimeMeansAgreement(s1, ws', t2, a);
        assert Get(s1.rows[a].cols, c) == ws'[i].values[c];
        assert Get(s1.rows[a].cols, c) == ws'[j].values[c];
      }
    }
  }
}

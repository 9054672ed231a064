/**
 The repositories of the `raw` schema: one transaction per root entity, written
 as a sequence of upserts. Saving the same entity again is shown to be idle.
 */
module RawRepositories {
  import opened Prelude
  import opened RawStore

  /** Key and columns of one mapped row, bookkeeping columns left out. */
  datatype Entity = Entity(key: seq<string>, cols: Cols)

  datatype BatchOutcome = BatchOutcome(created: nat, updated: nat)

  ghost predicate IsBookkeeping(tracking: Cols) { tracking.Keys <= TRACKING }

  function RowOf(t: TableName, e: Entity): Write { Write(Address(t, e.key), e.cols) }

  function TrackedRow(t: TableName, e: Entity, tracking: Cols): Write {
    Write(Address(t, e.key), e.cols + tracking)
  }

  function Rows(t: TableName, es: seq<Entity>): seq<Write> {
    seq(|es|, i requires 0 <= i < |es| => RowOf(t, es[i]))
  }

  function TrackedRows(t: TableName, es: seq<Entity>, tracking: Cols): seq<Write> {
    seq(|es|, i requires 0 <= i < |es| => TrackedRow(t, es[i], tracking))
  }

  function CountTrue(flags: seq<bool>): (n: nat)
    ensures n <= |flags|
  {
    if flags == [] then 0 else CountTrue(flags[..|flags| - 1]) + if flags[|flags| - 1] then 1 else 0
  }

  predicate Acceptable(ws: seq<Write>) { ws != [] && SameColumns(ws) && DistinctKeys(ws) }

  lemma {:induction false} ApplyAllAppend(s: Store, a: seq<Write>, b: seq<Write>, now: int)
    ensures ApplyAll(s, a + b, now) == ApplyAll(ApplyAll(s, a, now), b, now)
  {
    if b == [] {
      assert a + b == a;
    } else {
      assert (a + b)[..|a + b| - 1] == a + b[..|b| - 1];
      ApplyAllAppend(s, a, b[..|b| - 1], now);
    }
  }

  function CreatedCount(s: Store, ws: seq<Write>): nat {
    CountTrue(seq(|ws|, i requires 0 <= i < |ws| => ws[i].at !in s.rows))
  }

  function DeputyWrites(deputy: Entity, mandates: seq<Entity>, roles: seq<Entity>, tracking: Cols): seq<Write> {
    [TrackedRow(Deputy, deputy, tracking)] + Rows(Mandate, mandates) + Rows(GovernmentRole, roles)
  }

  /** Entity `i` is the last of the list with its key. */
  predicate IsLastOfItsKey(es: seq<Entity>, i: nat) {
    i < |es| && forall j :: i < j < |es| ==> es[j].key != es[i].key
  }

  /** The last entity of each key is what its row holds. */
  ghost predicate RowsHold(s: Store, t: TableName, es: seq<Entity>, tracking: Cols) {
    forall i :: 0 <= i < |es| && IsLastOfItsKey(es, i) ==> Holds(s, Write(Address(t, es[i].key), es[i].cols + tracking))
  }

  ghost predicate HasKey(es: seq<Entity>, key: seq<string>) { exists i :: 0 <= i < |es| && es[i].key == key }

  /** The deputy, one of its mandates or one of its roles. */
  predicate IsDeputyAddress(deputy: Entity, mandates: seq<Entity>, roles: seq<Entity>, a: Address) {
    || a == Address(Deputy, deputy.key) || (a.table == Mandate && exists i :: 0 <= i < |mandates| && mandates[i].key == a.key)
    || (a.table == GovernmentRole && exists i :: 0 <= i < |roles| && roles[i].key == a.key)
  }

  /** What saving a deputy comes to: its row, one for each mandate and each role, and no other row moved. */
  ghost predicate DeputyStored(s: Store, s': Store, deputy: Entity, mandates: seq<Entity>, roles: seq<Entity>, tracking: Cols) {
    && Holds(s', Write(Address(Deputy, deputy.key), deputy.cols + tracking))
    && RowsHold(s', Mandate, mandates, map[]) && RowsHold(s', GovernmentRole, roles, map[])
    && (forall key :: HasKey(mandates, key) ==> Address(Mandate, key) in s'.rows)
    && (forall key :: HasKey(roles, key) ==> Address(GovernmentRole, key) in s'.rows)
    && OnlyMoves(s, s', (a: Address) => IsDeputyAddress(deputy, mandates, roles, a))
  }

  /** The rows of a list of entities, somewhere in a run of writes that meets their table nowhere else. */
  lemma GroupHolds(s: Store, before: seq<Write>, t: TableName, es: seq<Entity>, tracking: Cols, after: seq<Write>, now: int)
    requires forall w :: w in after ==> w.at.table != t
    ensures RowsHold(ApplyAll(s, before + TrackedRows(t, es, tracking) + after, now), t, es, tracking)
    ensures forall key :: HasKey(es, key) ==> Address(t, key) in ApplyAll(s, before + TrackedRows(t, es, tracking) + after, now).rows
  {
    var rows := TrackedRows(t, es, tracking);
    var ws := before + rows + after;
    forall i | 0 <= i < |es| && IsLastOfItsKey(es, i)
      ensures Holds(ApplyAll(s, ws, now), Write(Address(t, es[i].key), es[i].cols + tracking))
    {
      var k := |before| + i;
      assert ws[k] == rows[i];
      forall j | k < j < |ws| ensures ws[j].at != ws[k].at {
        if j < |before| + |rows| { assert ws[j] == rows[j - |before|]; } else { assert ws[j] in after; }
      }
      LastWriteHolds(s, ws, now, k);
    }
    forall key | HasKey(es, key) ensures Address(t, key) in ApplyAll(s, ws, now).rows {
      var i :| 0 <= i < |es| && es[i].key == key;
      assert ws[|before| + i] == rows[i] && ws[|before| + i] in ws;
      RowAfter(s, ws, now, Address(t, key));
    }
  }

  lemma RowsAreUntracked(t: TableName, es: seq<Entity>)
    ensures TrackedRows(t, es, map[]) == Rows(t, es)
  {
    forall i | 0 <= i < |es| ensures es[i].cols + map[] == es[i].cols { }
  }

  lemma RowOfKey(t: TableName, es: seq<Entity>, tracking: Cols, w: Write)
    requires w in TrackedRows(t, es, tracking)
    ensures w.at.table == t && HasKey(es, w.at.key)
  {
    var i :| 0 <= i < |es| && TrackedRows(t, es, tracking)[i] == w;
    assert es[i].key == w.at.key;
  }

  lemma DeputyWriteIsThere(deputy: Entity, mandates: seq<Entity>, roles: seq<Entity>, tracking: Cols, k: nat)
    requires k < |DeputyWrites(deputy, mandates, roles, tracking)|
    ensures IsDeputyAddress(deputy, mandates, roles, DeputyWrites(deputy, mandates, roles, tracking)[k].at)
  {
    var at := DeputyWrites(deputy, mandates, roles, tracking)[k].at;
    if 1 <= k < 1 + |mandates| {
      assert at == Address(Mandate, mandates[k - 1].key);
    } else if k > |mandates| {
      assert at == Address(GovernmentRole, roles[k - 1 - |mandates|].key);
    }
  }

  lemma DeputyLeavesOthers(s: Store, deputy: Entity, mandates: seq<Entity>, roles: seq<Entity>, tracking: Cols, now: int)
    ensures OnlyMoves(s, ApplyAll(s, DeputyWrites(deputy, mandates, roles, tracking), now),
                      (a: Address) => IsDeputyAddress(deputy, mandates, roles, a))
  {
    var ws := DeputyWrites(deputy, mandates, roles, tracking);
    forall a: Address | !IsDeputyAddress(deputy, mandates, roles, a)
      ensures (a in ApplyAll(s, ws, now).rows <==> a in s.rows) && (a in s.rows ==> ApplyAll(s, ws, now).rows[a] == s.rows[a])
    {
      forall w | w in ws ensures w.at != a {
        var k :| 0 <= k < |ws| && ws[k] == w;
        DeputyWriteIsThere(deputy, mandates, roles, tracking, k);
      }
      UnnamedRowStays(s, ws, now, a);
    }
  }

  lemma DeputyIsStored(s: Store, deputy: Entity, mandates: seq<Entity>, roles: seq<Entity>, tracking: Cols, now: int)
    ensures DeputyStored(s, ApplyAll(s, DeputyWrites(deputy, mandates, roles, tracking), now), deputy, mandates, roles, tracking)
  {
    var ws := DeputyWrites(deputy, mandates, roles, tracking);
    var root, ms, rs := [TrackedRow(Deputy, deputy, tracking)], TrackedRows(Mandate, mandates, map[]), TrackedRows(GovernmentRole, roles, map[]);
    RowsAreUntracked(Mandate, mandates);
    RowsAreUntracked(GovernmentRole, roles);
    assert ws == root + ms + rs && ws == root + ms + rs + [];
    assert ws[0] == root[0];
    LastWriteHolds(s, ws, now, 0);
    GroupHolds(s, root, Mandate, mandates, map[], rs, now);
    GroupHolds(s, root + ms, GovernmentRole, roles, map[], [], now);
    DeputyLeavesOthers(s, deputy, mandates, roles, tracking, now);
  }

  /** A list of tracked rows of one table: the last of each key holds, and no other row moved. */
  lemma TrackedRowsAreStored(s: Store, t: TableName, es: seq<Entity>, tracking: Cols, now: int)
    ensures var s' := ApplyAll(s, TrackedRows(t, es, tracking), now);
            && RowsHold(s', t, es, tracking) && (forall key :: HasKey(es, key) ==> Address(t, key) in s'.rows)
            && OnlyMoves(s, s', (a: Address) => a.table == t && HasKey(es, a.key))
  {
    var ws := TrackedRows(t, es, tracking);
    assert [] + ws + [] == ws;
    GroupHolds(s, [], t, es, tracking, [], now);
    forall a: Address | !(a.table == t && HasKey(es, a.key))
      ensures (a in ApplyAll(s, ws, now).rows <==> a in s.rows) && (a in s.rows ==> ApplyAll(s, ws, now).rows[a] == s.rows[a])
    {
      forall w | w in ws ensures w.at != a { RowOfKey(t, es, tracking, w); }
      UnnamedRowStays(s, ws, now, a);
    }
  }

  /** A connection to the store, with the two kinds of statement and the transactions built on them. */
  class RawRepository {
    var db: Store

    constructor (initial: Store)
      ensures db == initial
    {
      db := initial;
    }

    method Upsert(w: Write, now: int) returns (id: nat, created: bool)
      modifies this
      ensures db == Apply(old(db), w, now)
      ensures created <==> w.at !in old(db).rows
      ensures w.at in db.rows && id == db.rows[w.at].id
    {
      created := w.at !in db.rows;
      db := Apply(db, w, now);
      id := db.rows[w.at].id;
    }

    /** One `created` flag per row, in order. */
    method BulkUpsert(t: TableName, ws: seq<Write>, now: int) returns (r: Result<seq<bool>, StatementError>)
      requires OneTable(ws, t)
      modifies this
      ensures r.Ok? <==> Acceptable(ws)
      ensures r.Err? ==> db == old(db)
      ensures r.Ok? ==> db == ApplyAll(old(db), ws, now)
      ensures r.Ok? ==> |r.value| == |ws| && forall i :: 0 <= i < |ws| ==> (r.value[i] <==> ws[i].at !in old(db).rows)
    {
      if ws == [] { return Err(NoRows); }
      if !SameColumns(ws) { return Err(MixedColumns); }
      if !DistinctKeys(ws) { return Err(RepeatedKey); }
      BulkIsFold(db, t, ws, now);
      var before := db;
      r := Ok(seq(|ws|, i requires 0 <= i < |ws| => ws[i].at !in before.rows));
      db := Bulk(before, t, ws, now);
    }

    /** A run of single-row upserts in one table. */
    method UpsertEach(ws: seq<Write>, now: int)
      modifies this
      ensures db == ApplyAll(old(db), ws, now)
    {
      for i := 0 to |ws|
        invariant db == ApplyAll(old(db), ws[..i], now)
      {
        assert ws[..i + 1][..i] == ws[..i];
        var _, _ := Upsert(ws[i], now);
      }
      assert ws[..|ws|] == ws;
    }

    method SaveDeputy(deputy: Entity, mandates: seq<Entity>, roles: seq<Entity>, tracking: Cols, now: int)
      returns (id: nat, created: bool)
      modifies this
      ensures db == ApplyAll(old(db), DeputyWrites(deputy, mandates, roles, tracking), now)
      ensures DeputyStored(old(db), db, deputy, mandates, roles, tracking)
      ensures created <==> Address(Deputy, deputy.key) !in old(db).rows
    {
      var root := TrackedRow(Deputy, deputy, tracking);
      var start := db;
      id, created := Upsert(root, now);
      UpsertEach(Rows(Mandate, mandates), now);
      UpsertEach(Rows(GovernmentRole, roles), now);
      assert [root][..0] == [] && ApplyAll(start, [root], now) == Apply(start, root, now);
      ApplyAllAppend(start, [root], Rows(Mandate, mandates), now);
      ApplyAllAppend(start, [root] + Rows(Mandate, mandates), Rows(GovernmentRole, roles), now);
      DeputyIsStored(start, deputy, mandates, roles, tracking, now);
    }

    method SavePoliticalGroups(groups: seq<Entity>, tracking: Cols, now: int) returns (n: nat)
      modifies this
      ensures db == ApplyAll(old(db), TrackedRows(PoliticalGroup, groups, tracking), now) && n == |groups|
      ensures RowsHold(db, PoliticalGroup, groups, tracking)
    {
      TrackedRowsAreStored(db, PoliticalGroup, groups, tracking, now);
      UpsertEach(TrackedRows(PoliticalGroup, groups, tracking), now);
      n := |groups|;
    }

    method SaveBatch(amendments: seq<Entity>, tracking: Cols, now: int)
      returns (r: Result<BatchOutcome, StatementError>)
      modifies this
      ensures amendments == [] ==> r == Ok(BatchOutcome(0, 0)) && db == old(db)
      ensures amendments != [] ==> (r.Ok? <==> Acceptable(TrackedRows(Amendment, amendments, tracking)))
      ensures r.Err? ==> db == old(db)
      ensures r.Ok? ==> db == ApplyAll(old(db), TrackedRows(Amendment, amendments, tracking), now)
      ensures r.Ok? ==> RowsHold(db, Amendment, amendments, tracking)
      ensures r.Ok? ==> r.value.created + r.value.updated == |amendments|
      ensures r.Ok? ==> r.value.created == CreatedCount(old(db), TrackedRows(Amendment, amendments, tracking))
    {
      if amendments == [] {
        return Ok(BatchOutcome(0, 0));
      }
      var rows := TrackedRows(Amendment, amendments, tracking);
      var start := db;
      TrackedRowsAreStored(start, Amendment, amendments, tracking, now);
      var flags := BulkUpsert(Amendment, rows, now);
      if flags.Err? {
        return Err(flags.error);
      }
      assert flags.value == seq(|rows|, i requires 0 <= i < |rows| => rows[i].at !in start.rows);
      var created := CountTrue(flags.value);
      return Ok(BatchOutcome(created, |flags.value| - created));
    }

    /**
     Law (stages, textes), ballot (groups, votes) and agenda item (points): the root,
     then each non-empty list of children in one statement. A refused statement rolls all back.
     */
    method SaveAggregate(root: Write, t1: TableName, first: seq<Write>, t2: TableName, second: seq<Write>, now: int)
      returns (r: Result<bool, StatementError>)
      requires OneTable(first, t1) && OneTable(second, t2)
      modifies this
      ensures r.Ok? <==> (first == [] || Acceptable(first)) && (second == [] || Acceptable(second))
      ensures r.Err? ==> db == old(db)
      ensures r.Ok? ==> db == ApplyAll(old(db), [root] + first + second, now)
      ensures r.Ok? ==> (r.value <==> root.at !in old(db).rows)
    {
      var start := db;
      var _, created := Upsert(root, now);
      assert [root][..0] == [] && ApplyAll(start, [root], now) == Apply(start, root, now);
      assert [root] + [] == [root] && [root] + first + [] == [root] + first;
      ApplyAllAppend(start, [root], first, now);
      ApplyAllAppend(start, [root] + first, second, now);
      if first != [] {
        var f := BulkUpsert(t1, first, now);
        if f.Err? {
          db := start;
          return Err(f.error);
        }
      }
      if second != [] {
        var f := BulkUpsert(t2, second, now);
        if f.Err? {
          db := start;
          return Err(f.error);
        }
      }
      return Ok(created);
    }
  }

  // ---------------------------------------------------------------- saving twice

  lemma TrackedRowsAgain(t: TableName, es: seq<Entity>, run1: Cols, run2: Cols)
    requires IsBookkeeping(run1) && run1.Keys == run2.Keys
    ensures SameWrites(TrackedRows(t, es, run1), TrackedRows(t, es, run2))
  {
  }

  lemma AtMostOneTrackedWrite(ws: seq<Write>)
    requires forall i, j :: 0 <= i < j < |ws| && Tracked(ws[i].at.table) ==> ws[i].at != ws[j].at
    ensures NoConflict(ws)
  {
  }

  /** A deputy saved twice, duplicated mandates included: nothing created, no content and no time moved. */
  lemma DeputySavedTwice(s: Store, deputy: Entity, mandates: seq<Entity>, roles: seq<Entity>, run1: Cols, run2: Cols, t1: int, t2: int)
    requires IsBookkeeping(run1) && run1.Keys == run2.Keys
    ensures var ws1, ws2 := DeputyWrites(deputy, mandates, roles, run1), DeputyWrites(deputy, mandates, roles, run2);
            var s1 := ApplyAll(s, ws1, t1);
            && SameContent(s1, ApplyAll(s1, ws2, t2)) && SameTimes(s1, ApplyAll(s1, ws2, t2))
            && forall w :: w in ws2 ==> w.at in s1.rows
  {
    var ws1, ws2 := DeputyWrites(deputy, mandates, roles, run1), DeputyWrites(deputy, mandates, roles, run2);
    assert SameWrites(ws1, ws2);
    AtMostOneTrackedWrite(ws1);
    SecondRunChangesNoContent(s, ws1, ws2, t1, t2);
    SecondRunMovesNoTime(s, ws1, ws2, t1, t2);
  }

  lemma {:induction false} AllFalse(flags: seq<bool>)
    requires forall i :: 0 <= i < |flags| ==> !flags[i]
    ensures CountTrue(flags) == 0
  {
    if flags == [] {
    } else {
      AllFalse(flags[..|flags| - 1]);
    }
  }

  lemma CreatedCountStep(s: Store, ws: seq<Write>)
    requires ws != []
    ensures CreatedCount(s, ws) == CreatedCount(s, ws[..|ws| - 1]) + if ws[|ws| - 1].at !in s.rows then 1 else 0
  {
    var init := ws[..|ws| - 1];
    var flags := seq(|ws|, i requires 0 <= i < |ws| => ws[i].at !in s.rows);
    assert flags[..|ws| - 1] == seq(|init|, i requires 0 <= i < |init| => init[i].at !in s.rows);
  }

  /** What an accepted statement reports as created is by how many rows the store grew. */
  lemma {:induction false} CreatedCountIs(s: Store, ws: seq<Write>, now: int)
    requires DistinctKeys(ws)
    ensures |ApplyAll(s, ws, now).rows.Keys| == |s.rows.Keys| + CreatedCount(s, ws)
  {
    if ws == [] {
    } else {
      var init, last := ws[..|ws| - 1], ws[|ws| - 1];
      CreatedCountIs(s, init, now);
      CreatedCountStep(s, ws);
      RowAfter(s, init, now, last.at);
      assert ApplyAll(s, ws, now).rows.Keys == ApplyAll(s, init, now).rows.Keys + {last.at};
    }
  }

  lemma NoneCreated(s: Store, ws: seq<Write>)
    requires forall w :: w in ws ==> w.at in s.rows
    ensures CreatedCount(s, ws) == 0
  {
    var flags := seq(|ws|, i requires 0 <= i < |ws| => ws[i].at !in s.rows);
    forall i | 0 <= i < |flags| ensures !flags[i] { assert ws[i] in ws; }
    AllFalse(flags);
  }

  /** A batch of amendments accepted once is accepted again, and idle. */
  lemma BatchSavedTwice(s: Store, amendments: seq<Entity>, run1: Cols, run2: Cols, t1: int, t2: int)
    requires IsBookkeeping(run1) && run1.Keys == run2.Keys
    requires Acceptable(TrackedRows(Amendment, amendments, run1))
    ensures var ws1, ws2 := TrackedRows(Amendment, amendments, run1), TrackedRows(Amendment, amendments, run2);
            var s1 := ApplyAll(s, ws1, t1);
            && Acceptable(ws2) && CreatedCount(s1, ws2) == 0
            && SameContent(s1, ApplyAll(s1, ws2, t2)) && SameTimes(s1, ApplyAll(s1, ws2, t2))
  {
    var ws1, ws2 := TrackedRows(Amendment, amendments, run1), TrackedRows(Amendment, amendments, run2);
    TrackedRowsAgain(Amendment, amendments, run1, run2);
    SameColumnsAgain(ws1, ws2);
    assert DistinctKeys(ws2) by {
      forall i, j | 0 <= i < j < |ws2| ensures ws2[i].at != ws2[j].at { assert ws1[i].at != ws1[j].at; }
    }
    AtMostOneTrackedWrite(ws1);
    SecondRunChangesNoContent(s, ws1, ws2, t1, t2);
    SecondRunMovesNoTime(s, ws1, ws2, t1, t2);
    NoneCreated(ApplyAll(s, ws1, t1), ws2);
  }

  /** Law, ballot or agenda item saved twice. */
  lemma AggregateSavedTwice(s: Store, t: TableName, root: Entity, children: seq<Write>, run1: Cols, run2: Cols, t1: int, t2: int)
    requires IsBookkeeping(run1) && run1.Keys == run2.Keys
    requires forall w :: w in children ==> !Tracked(w.at.table)
    ensures var ws1, ws2 := [TrackedRow(t, root, run1)] + children, [TrackedRow(t, root, run2)] + children;
            var s1 := ApplyAll(s, ws1, t1);
            && SameContent(s1, ApplyAll(s1, ws2, t2)) && SameTimes(s1, ApplyAll(s1, ws2, t2))
            && forall w :: w in ws2 ==> w.at in s1.rows
  {
    var ws1, ws2 := [TrackedRow(t, root, run1)] + children, [TrackedRow(t, root, run2)] + children;
    assert SameWrites(ws1, ws2);
    forall i, j | 0 <= i < j < |ws1| && Tracked(ws1[i].at.table) ensures ws1[i].at != ws1[j].at {
      assert ws1[j] in children;
    }
    AtMostOneTrackedWrite(ws1);
    SecondRunChangesNoContent(s, ws1, ws2, t1, t2);
    SecondRunMovesNoTime(s, ws1, ws2, t1, t2);
  }

  /** Columns of raw.ballot that the mapper writes, besides the key. */
  const BALLOT_COLUMNS := {
    "legislature", "number", "agenda_uid", "session_ref", "date", "kind", "kind_label", "majority_rule", "result", "title",
    "requested_by", "dossier_uid", "location", "voters", "expressed", "required", "for_count", "against_count",
    "abstention_count", "non_voting_count", "non_voting_voluntary_count"}

  /** Columns of raw.ballot that its projection writes back. */
  const RESOLVED_COLUMNS := {"resolved_dossier_uid", "resolved_amendment_uid"}

  /** The writes of one saved ballot: its mapped row, then rows of groups and votes. */
  ghost predicate IsBallotSave(ws: seq<Write>) {
    exists ballot, tracking, children ::
      && ws == [TrackedRow(Ballot, ballot, tracking)] + children
      && ballot.cols.Keys == BALLOT_COLUMNS && IsBookkeeping(tracking)
      && forall w :: w in children ==> w.at.table != Ballot
  }

  lemma LinksAreNotMapped(link: string)
    requires link in RESOLVED_COLUMNS
    ensures link !in BALLOT_COLUMNS && link !in TRACKING
  {
  }

  lemma BallotSaveNamesNoLink(ws: seq<Write>, key: seq<string>, link: string)
    requires IsBallotSave(ws) && link in RESOLVED_COLUMNS
    ensures forall w :: w in ws && w.at == Address(Ballot, key) ==> link !in w.values
  {
    var ballot, tracking, children :|
      && ws == [TrackedRow(Ballot, ballot, tracking)] + children
      && ballot.cols.Keys == BALLOT_COLUMNS && IsBookkeeping(tracking)
      && forall w :: w in children ==> w.at.table != Ballot;
    LinksAreNotMapped(link);
    forall w | w in ws && w.at == Address(Ballot, key) ensures link !in w.values {
      assert w in children ==> w.at.table != Ballot;
    }
  }

  /** The links that the projection of ballots resolved survive any number of re-collections. */
  lemma {:induction false} ResolvedLinksSurvive(s: Store, saves: seq<seq<Write>>, key: seq<string>, now: int, link: string)
    requires link in RESOLVED_COLUMNS && Address(Ballot, key) in s.rows
    requires forall i :: 0 <= i < |saves| ==> IsBallotSave(saves[i])
    ensures var after := ApplyAll(s, Flatten(saves), now);
            && Address(Ballot, key) in after.rows
            && Get(after.rows[Address(Ballot, key)].cols, link) == Get(s.rows[Address(Ballot, key)].cols, link)
  {
    if saves == [] {
    } else {
      var init, last := saves[..|saves| - 1], saves[|saves| - 1];
      assert forall i :: 0 <= i < |init| ==> init[i] == saves[i];
      ResolvedLinksSurvive(s, init, key, now, link);
      ApplyAllAppend(s, Flatten(init), last, now);
      BallotSaveNamesNoLink(last, key, link);
      UnnamedColumnsSurvive(ApplyAll(s, Flatten(init), now), last, now, Address(Ballot, key), link);
    }
  }

  lemma GroupsConflict(groups: seq<Entity>, tracking: Cols)
    requires IsBookkeeping(tracking)
    requires forall g, h :: g in groups && h in groups ==> g.cols.Keys == h.cols.Keys
    requires forall g :: g in groups ==> g.cols.Keys !! TRACKING
    ensures NoConflict(TrackedRows(PoliticalGroup, groups, tracking)) <==>
              forall g, h :: g in groups && h in groups && g.key == h.key ==> g == h
  {
    var ws := TrackedRows(PoliticalGroup, groups, tracking);
    if forall g, h :: g in groups && h in groups && g.key == h.key ==> g == h {
      forall i, j | 0 <= i < |ws| && 0 <= j < |ws| && ws[i].at == ws[j].at ensures ws[i] == ws[j] {
        assert groups[i] in groups && groups[j] in groups;
      }
    }
    if NoConflict(ws) {
      forall g, h | g in groups && h in groups && g.key == h.key ensures g == h {
        var i :| 0 <= i < |groups| && groups[i] == g;
        var j :| 0 <= j < |groups| && groups[j] == h;
        assert ws[i].at == ws[j].at;
        forall c | c in g.cols ensures g.cols[c] == h.cols[c] {
          assert c in ws[i].values && c in ws[j].values && ws[i].values[c] == ws[j].values[c];
        }
        assert g.cols == h.cols;
      }
    }
  }

  /**
   Political groups are upserted one by one into a tracked table, so the list may
   name a uid twice. A second save then moves `updated_at` unless the two agree.
   */
  lemma GroupsSavedTwice(s: Store, groups: seq<Entity>, run1: Cols, run2: Cols, t1: int, t2: int)
    requires IsBookkeeping(run1) && run1.Keys == run2.Keys
    requires forall g, h :: g in groups && h in groups ==> g.cols.Keys == h.cols.Keys
    requires forall g :: g in groups ==> g.cols.Keys !! TRACKING
    requires var s1 := ApplyAll(s, TrackedRows(PoliticalGroup, groups, run1), t1);
             forall a :: a in s1.rows ==> s1.rows[a].updatedAt < t2
    ensures var s1 := ApplyAll(s, TrackedRows(PoliticalGroup, groups, run1), t1);
            var s2 := ApplyAll(s1, TrackedRows(PoliticalGroup, groups, run2), t2);
            && SameContent(s1, s2)
            && (SameTimes(s1, s2) <==> forall g, h :: g in groups && h in groups && g.key == h.key ==> g == h)
  {
    var ws1, ws2 := TrackedRows(PoliticalGroup, groups, run1), TrackedRows(PoliticalGroup, groups, run2);
    TrackedRowsAgain(PoliticalGroup, groups, run1, run2);
    assert SameColumns(ws1) by {
      forall i | 0 <= i < |groups| ensures groups[i] in groups { }
    }
    SecondRunChangesNoContent(s, ws1, ws2, t1, t2);
    TimesStayIffNoConflict(s, ws1, ws2, t1, t2);
    GroupsConflict(groups, run1);
  }
}

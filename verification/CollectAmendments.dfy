/** Collection of amendments by batches: a batch that cannot be saved sinks alone, not the run. */
module CollectAmendments {
  import opened Prelude
  import opened RawStore
  import opened RawRepositories
  import opened SyncReports

  const BATCH_SIZE: nat := 500

  datatype Amendment = Amendment(uid: string, entity: Entity)

  function Entities(batch: seq<Amendment>): seq<Entity> {
    seq(|batch|, i requires 0 <= i < |batch| => batch[i].entity)
  }

  function Uids(batch: seq<Amendment>): seq<string> {
    seq(|batch|, i requires 0 <= i < |batch| => batch[i].uid)
  }

  function BatchRows(batch: seq<Amendment>, tracking: Cols): seq<Write> {
    TrackedRows(RawStore.Amendment, Entities(batch), tracking)
  }

  /** What the world does to a run: which flushes raise for a reason outside the batch. */
  type Weather = nat -> bool

  predicate Lands(batch: seq<Amendment>, k: nat, raises: Weather, tracking: Cols) {
    !raises(k) && Acceptable(BatchRows(batch, tracking))
  }

  datatype State = State(db: Store, report: Report)

  function Unprocessed(st: State): State { st.(report := st.report.(processed := 0)) }

  // ---------------------------------------------------------------- specification

  /** Consecutive batches of 500 and a last one, not empty, with the rest. */
  function Batches(stream: seq<Amendment>): seq<seq<Amendment>> {
    if stream == [] then []
    else if |stream| <= BATCH_SIZE then [stream]
    else [stream[..BATCH_SIZE]] + Batches(stream[BATCH_SIZE..])
  }

  /** One transaction for one batch, the k-th of the run. */
  function Flushed(st: State, batch: seq<Amendment>, k: nat, raises: Weather, tracking: Cols, now: int): State {
    if Lands(batch, k, raises, tracking) then
      var rows := BatchRows(batch, tracking);
      var created := CreatedCount(st.db, rows);
      State(ApplyAll(st.db, rows, now),
            st.report.(created := st.report.created + created, updated := st.report.updated + |batch| - created))
    else st.(report := Failing(st.report, Uids(batch)))
  }

  function AllFlushed(st: State, batches: seq<seq<Amendment>>, raises: Weather, tracking: Cols, now: int): State {
    if batches == [] then st
    else
      var k := |batches| - 1;
      Flushed(AllFlushed(st, batches[..k], raises, tracking, now), batches[k], k, raises, tracking, now)
  }

  /** Outcome of a whole run over `stream`, `processed` aside. */
  function CollectedRun(s: Store, stream: seq<Amendment>, raises: Weather, tracking: Cols, now: int): State {
    AllFlushed(State(s, EMPTY), Batches(stream), raises, tracking, now)
  }

  // ---------------------------------------------------------------- the use case

  lemma {:induction false} BatchesSnoc(done: seq<Amendment>, batch: seq<Amendment>)
    requires |done| % BATCH_SIZE == 0 && 0 < |batch| <= BATCH_SIZE
    ensures Batches(done + batch) == Batches(done) + [batch]
  {
    if done == [] {
      assert done + batch == batch;
    } else {
      assert |done| >= BATCH_SIZE;
      var rest := done[BATCH_SIZE..];
      assert (done + batch)[..BATCH_SIZE] == done[..BATCH_SIZE];
      assert (done + batch)[BATCH_SIZE..] == rest + batch;
      BatchesSnoc(rest, batch);
      if rest == [] { assert done[..BATCH_SIZE] == done; }
    }
  }

  lemma {:induction false} FailingCommutes(r: Report, uids: seq<string>, n: nat)
    ensures Failing(r.(processed := n), uids) == Failing(r, uids).(processed := n)
  {
    if uids == [] {
    } else {
      FailingCommutes(r, uids[..|uids| - 1], n);
    }
  }

  lemma FlushCommutesWithProcessed(st: State, batch: seq<Amendment>, k: nat, raises: Weather, tracking: Cols, now: int, n: nat)
    ensures Flushed(st.(report := st.report.(processed := n)), batch, k, raises, tracking, now)
         == var after := Flushed(st, batch, k, raises, tracking, now); after.(report := after.report.(processed := n))
  {
    FailingCommutes(st.report, Uids(batch), n);
  }

  lemma AllFlushedSnoc(start: State, batches: seq<seq<Amendment>>, batch: seq<Amendment>, raises: Weather, tracking: Cols, now: int)
    ensures AllFlushed(start, batches + [batch], raises, tracking, now)
         == Flushed(AllFlushed(start, batches, raises, tracking, now), batch, |batches|, raises, tracking, now)
  {
    assert (batches + [batch])[..|batches|] == batches;
  }

  lemma FlushKeepsProcessed(st: State, batch: seq<Amendment>, k: nat, raises: Weather, tracking: Cols, now: int)
    ensures Flushed(st, batch, k, raises, tracking, now).report.processed == st.report.processed
  {
    FailingCommutes(st.report, Uids(batch), st.report.processed);
    assert st.report.(processed := st.report.processed) == st.report;
  }

  lemma FlushIsNext(start: State, st: State, done: seq<Amendment>, batch: seq<Amendment>, raises: Weather,
                    tracking: Cols, now: int, after: State)
    requires |done| % BATCH_SIZE == 0 && 0 < |batch| <= BATCH_SIZE
    requires Unprocessed(st) == AllFlushed(start, Batches(done), raises, tracking, now)
    requires after == Flushed(st, batch, |Batches(done)|, raises, tracking, now)
    ensures Unprocessed(after) == AllFlushed(start, Batches(done + batch), raises, tracking, now)
  {
    BatchesSnoc(done, batch);
    AllFlushedSnoc(start, Batches(done), batch, raises, tracking, now);
    FlushCommutesWithProcessed(st, batch, |Batches(done)|, raises, tracking, now, 0);
  }

  lemma OneBatchMore(done: seq<Amendment>, batch: seq<Amendment>)
    requires |done| % BATCH_SIZE == 0 && 0 < |batch| <= BATCH_SIZE
    ensures |Batches(done + batch)| == |Batches(done)| + 1
    ensures |batch| == BATCH_SIZE ==> |done + batch| % BATCH_SIZE == 0
  {
    BatchesSnoc(done, batch);
  }

  class Collector {
    const repository: RawRepository
    const report: SyncReport
    var flushes: nat

    constructor (repository: RawRepository)
      ensures this.repository == repository && fresh(report) && report.Value() == EMPTY && flushes == 0
    {
      this.repository, flushes := repository, 0;
      report := new SyncReport();
    }

    function Current(): State
      reads this, repository, report
    {
      State(repository.db, report.Value())
    }

    /** Everything in `done` has been flushed, `n` amendments have been read. */
    ghost predicate Reached(start: State, done: seq<Amendment>, n: nat, raises: Weather, tracking: Cols, now: int)
      reads this, repository, report
    {
      && |done| % BATCH_SIZE == 0
      && flushes == |Batches(done)|
      && report.processed == n
      && Unprocessed(Current()) == AllFlushed(start, Batches(done), raises, tracking, now)
    }

    method Flush(batch: seq<Amendment>, raises: Weather, tracking: Cols, now: int)
      modifies this, repository, report
      ensures batch == [] ==> Current() == old(Current()) && flushes == old(flushes)
      ensures batch != [] ==> Current() == Flushed(old(Current()), batch, old(flushes), raises, tracking, now)
      ensures batch != [] ==> flushes == old(flushes) + 1
    {
      if batch == [] { return; }
      var k := flushes;
      flushes := flushes + 1;
      if !raises(k) {
        var outcome := repository.SaveBatch(Entities(batch), tracking, now);
        if outcome.Ok? {
          report.created := report.created + outcome.value.created;
          report.updated := report.updated + outcome.value.updated;
          return;
        }
      }
      RecordFailures(batch);
    }

    method RecordFailures(batch: seq<Amendment>)
      modifies report
      ensures report.Value() == Failing(old(report.Value()), Uids(batch))
    {
      ghost var before := report.Value();
      for i := 0 to |batch|
        invariant report.Value() == Failing(before, Uids(batch)[..i])
      {
        assert Uids(batch)[..i + 1][..i] == Uids(batch)[..i];
        report.RecordFailure(batch[i].uid);
      }
      assert Uids(batch)[..|batch|] == Uids(batch);
    }

    /** A flush in the middle of a run takes it one batch further. */
    method FlushNext(batch: seq<Amendment>, ghost start: State, ghost done: seq<Amendment>, ghost n: nat,
                     raises: Weather, tracking: Cols, now: int)
      requires |batch| <= BATCH_SIZE && Reached(start, done, n, raises, tracking, now)
      modifies this, repository, report
      ensures report.processed == n
      ensures Unprocessed(Current()) == AllFlushed(start, Batches(done + batch), raises, tracking, now)
      ensures |batch| == BATCH_SIZE ==> Reached(start, done + batch, n, raises, tracking, now)
    {
      ghost var before := Current();
      Flush(batch, raises, tracking, now);
      if batch == [] {
        assert done + batch == done;
      } else {
        FlushIsNext(start, before, done, batch, raises, tracking, now, Current());
        FlushKeepsProcessed(before, batch, |Batches(done)|, raises, tracking, now);
        OneBatchMore(done, batch);
      }
    }

    method Execute(stream: seq<Amendment>, dryRun: bool, raises: Weather, tracking: Cols, now: int)
      requires flushes == 0 && report.Value() == EMPTY
      modifies this, repository, report
      ensures dryRun ==> Current() == State(old(repository.db), EMPTY.(processed := |stream|, skipped := |stream|))
      ensures !dryRun ==> report.processed == |stream|
      ensures !dryRun ==> Unprocessed(Current()) == CollectedRun(old(repository.db), stream, raises, tracking, now)
    {
      var batch: seq<Amendment> := [];
      ghost var start := State(repository.db, EMPTY);
      ghost var done: seq<Amendment> := [];
      for i := 0 to |stream|
        invariant dryRun ==> batch == [] && Current() == State(start.db, EMPTY.(processed := i, skipped := i))
        invariant !dryRun ==> done + batch == stream[..i] && |batch| < BATCH_SIZE
        invariant !dryRun ==> Reached(start, done, i, raises, tracking, now)
      {
        report.processed := report.processed + 1;
        if dryRun {
          report.skipped := report.skipped + 1;
        } else {
          batch := batch + [stream[i]];
          assert done + batch == stream[..i + 1];
          if |batch| >= BATCH_SIZE {
            FlushNext(batch, start, done, i + 1, raises, tracking, now);
            done := done + batch;
            batch := [];
          }
        }
      }
      assert stream[..|stream|] == stream;
      if batch == [] {
        assert !dryRun ==> done == stream;
      }
      if !dryRun {
        FlushNext(batch, start, done, |stream|, raises, tracking, now);
      }
    }
  }

  // ---------------------------------------------------------------- what a run does

  /** The batches cut the stream: nothing lost, reordered or repeated; all full but the last, none empty. */
  lemma {:induction false} BatchesCutTheStream(stream: seq<Amendment>)
    ensures Flatten(Batches(stream)) == stream
    ensures forall k :: 0 <= k < |Batches(stream)| - 1 ==> |Batches(stream)[k]| == BATCH_SIZE
    ensures forall k :: 0 <= k < |Batches(stream)| ==> 0 < |Batches(stream)[k]| <= BATCH_SIZE
  {
    if stream == [] {
    } else if |stream| <= BATCH_SIZE {
      assert [stream][..0] == [] && [] + stream == stream;
    } else {
      BatchesCutTheStream(stream[BATCH_SIZE..]);
      FlattenCons(stream[..BATCH_SIZE], Batches(stream[BATCH_SIZE..]));
    }
  }

  /** Rows of the batches that land, in order. */
  function LandedRows(batches: seq<seq<Amendment>>, raises: Weather, tracking: Cols): seq<Write> {
    if batches == [] then []
    else
      var k := |batches| - 1;
      var before := LandedRows(batches[..k], raises, tracking);
      if Lands(batches[k], k, raises, tracking) then before + BatchRows(batches[k], tracking) else before
  }

  /** Uids of the batches that do not land, in order. */
  function SunkUids(batches: seq<seq<Amendment>>, raises: Weather, tracking: Cols): seq<string> {
    if batches == [] then []
    else
      var k := |batches| - 1;
      var before := SunkUids(batches[..k], raises, tracking);
      if Lands(batches[k], k, raises, tracking) then before else before + Uids(batches[k])
  }

  /**
   A run stores exactly the batches that did not fail, reports the others' uids,
   and counts every amendment once.
   */
  lemma {:induction false} RunStoresWhatLands(s: Store, batches: seq<seq<Amendment>>, raises: Weather, tracking: Cols, now: int)
    ensures var st := AllFlushed(State(s, EMPTY), batches, raises, tracking, now);
            && st.db == ApplyAll(s, LandedRows(batches, raises, tracking), now)
            && st.report.errors == Sample(SunkUids(batches, raises, tracking))
            && st.report.failed == |SunkUids(batches, raises, tracking)|
            && st.report.created + st.report.updated == |LandedRows(batches, raises, tracking)|
            && st.report.processed == st.report.skipped == 0
  {
    if batches == [] {
    } else {
      var k := |batches| - 1;
      RunStoresWhatLands(s, batches[..k], raises, tracking, now);
      if Lands(batches[k], k, raises, tracking) {
        ApplyAllAppend(s, LandedRows(batches[..k], raises, tracking), BatchRows(batches[k], tracking), now);
      } else {
        var before := AllFlushed(State(s, EMPTY), batches[..k], raises, tracking, now);
        FailingIsSample(before.report, SunkUids(batches[..k], raises, tracking), Uids(batches[k]));
      }
    }
  }

  ghost predicate PartAt<T>(part: seq<T>, whole: seq<T>, at: nat) {
    at + |part| <= |whole| && whole[at..at + |part|] == part
  }

  ghost predicate IsPart<T>(part: seq<T>, whole: seq<T>) { exists at :: PartAt(part, whole, at) }

  lemma PartOfSum<T>(part: seq<T>, a: seq<T>, b: seq<T>)
    ensures part == b || IsPart(part, a) ==> IsPart(part, a + b)
  {
    if part == b {
      assert PartAt(part, a + b, |a|);
    } else if at :| PartAt(part, a, at) {
      assert PartAt(part, a + b, at);
    }
  }

  /** All rows of a batch that lands are stored, together and in order; all uids of another are in the failures. */
  lemma {:induction false} EachBatchLandsOrSinks(batches: seq<seq<Amendment>>, raises: Weather, tracking: Cols, k: nat)
    requires k < |batches|
    ensures Lands(batches[k], k, raises, tracking) ==> IsPart(BatchRows(batches[k], tracking), LandedRows(batches, raises, tracking))
    ensures !Lands(batches[k], k, raises, tracking) ==> IsPart(Uids(batches[k]), SunkUids(batches, raises, tracking))
    decreases |batches|
  {
    var n := |batches| - 1;
    if k < n {
      assert batches[..n][k] == batches[k];
      EachBatchLandsOrSinks(batches[..n], raises, tracking, k);
    }
    PartOfSum(BatchRows(batches[k], tracking), LandedRows(batches[..n], raises, tracking), BatchRows(batches[n], tracking));
    PartOfSum(Uids(batches[k]), SunkUids(batches[..n], raises, tracking), Uids(batches[n]));
  }

  lemma {:induction false} EveryAmendmentLandsOrSinks(batches: seq<seq<Amendment>>, raises: Weather, tracking: Cols)
    ensures |LandedRows(batches, raises, tracking)| + |SunkUids(batches, raises, tracking)| == |Flatten(batches)|
  {
    if batches == [] {
    } else {
      var k := |batches| - 1;
      EveryAmendmentLandsOrSinks(batches[..k], raises, tracking);
      assert batches[..k] + [batches[k]] == batches;
    }
  }

  /** processed = created + updated + failed + skipped, over any run. */
  lemma CountersAddUp(s: Store, stream: seq<Amendment>, raises: Weather, tracking: Cols, now: int)
    ensures var r := AllFlushed(State(s, EMPTY), Batches(stream), raises, tracking, now).report;
            |stream| == r.created + r.updated + r.failed + r.skipped
  {
    BatchesCutTheStream(stream);
    RunStoresWhatLands(s, Batches(stream), raises, tracking, now);
    EveryAmendmentLandsOrSinks(Batches(stream), raises, tracking);
  }

  lemma {:induction false} FailingKeepsCreated(r: Report, uids: seq<string>)
    ensures Failing(r, uids).created == r.created
  {
    if uids == [] {
    } else {
      FailingKeepsCreated(r, uids[..|uids| - 1]);
    }
  }

  /** Over any run, `created` is by how many rows the store grew. */
  lemma {:induction false} CreatedIsGrowth(s: Store, batches: seq<seq<Amendment>>, raises: Weather, tracking: Cols, now: int)
    ensures var st := AllFlushed(State(s, EMPTY), batches, raises, tracking, now);
            |st.db.rows.Keys| == |s.rows.Keys| + st.report.created
  {
    if batches == [] {
    } else {
      var k := |batches| - 1;
      var before := AllFlushed(State(s, EMPTY), batches[..k], raises, tracking, now);
      CreatedIsGrowth(s, batches[..k], raises, tracking, now);
      FailingKeepsCreated(before.report, Uids(batches[k]));
      if Lands(batches[k], k, raises, tracking) { CreatedCountIs(before.db, BatchRows(batches[k], tracking), now); }
    }
  }

  // ---------------------------------------------------------------- running it twice

  lemma AcceptableAgain(ws: seq<Write>, ws': seq<Write>)
    requires SameWrites(ws, ws')
    ensures Acceptable(ws) <==> Acceptable(ws')
  {
    forall i | 0 <= i < |ws| ensures ws[i].at == ws'[i].at && ws[i].values.Keys == ws'[i].values.Keys {
      assert SameWrite(ws[i], ws'[i]);
    }
  }

  /** The batch has an amendment stored at that address. */
  ghost predicate Names(batch: seq<Amendment>, a: Address) {
    exists x :: x in batch && Address(RawStore.Amendment, x.entity.key) == a
  }

  lemma NamedByRows(batch: seq<Amendment>, tracking: Cols, a: Address)
    ensures Names(batch, a) <==> exists w :: w in BatchRows(batch, tracking) && w.at == a
  {
    var rows := BatchRows(batch, tracking);
    if x :| x in batch && Address(RawStore.Amendment, x.entity.key) == a {
      var i :| 0 <= i < |batch| && batch[i] == x;
      assert rows[i] in rows && rows[i].at == a;
    }
    if w :| w in rows && w.at == a {
      var i :| 0 <= i < |rows| && rows[i] == w;
      assert batch[i] in batch;
    }
  }

  /** Some batch that lands has an amendment at that address. */
  ghost predicate LandsAt(batches: seq<seq<Amendment>>, raises: Weather, tracking: Cols, a: Address) {
    exists k :: 0 <= k < |batches| && Lands(batches[k], k, raises, tracking) && Names(batches[k], a)
  }

  lemma {:induction false} LandedAddresses(batches: seq<seq<Amendment>>, raises: Weather, tracking: Cols, a: Address)
    ensures LandsAt(batches, raises, tracking, a) <==> exists w :: w in LandedRows(batches, raises, tracking) && w.at == a
  {
    if batches == [] {
    } else {
      var n := |batches| - 1;
      var init := batches[..n];
      LandedAddresses(init, raises, tracking, a);
      NamedByRows(batches[n], tracking, a);
      assert LandsAt(batches, raises, tracking, a) <==>
             LandsAt(init, raises, tracking, a) || (Lands(batches[n], n, raises, tracking) && Names(batches[n], a)) by {
        if k :| 0 <= k < n && Lands(init[k], k, raises, tracking) && Names(init[k], a) { assert batches[k] == init[k]; }
        if k :| 0 <= k < |batches| && Lands(batches[k], k, raises, tracking) && Names(batches[k], a) {
          if k < n { assert init[k] == batches[k]; }
        }
      }
    }
  }

  /** Every batch that has an amendment at that address lands in both runs, or in neither. */
  ghost predicate LandAlike(batches: seq<seq<Amendment>>, raises1: Weather, raises2: Weather, tracking: Cols, a: Address) {
    forall k :: 0 <= k < |batches| && Names(batches[k], a) ==>
      (Lands(batches[k], k, raises1, tracking) <==> Lands(batches[k], k, raises2, tracking))
  }

  lemma BatchLandsAgain(batch: seq<Amendment>, k: nat, raises: Weather, run1: Cols, run2: Cols)
    requires IsBookkeeping(run1) && run1.Keys == run2.Keys
    ensures SameWrites(BatchRows(batch, run1), BatchRows(batch, run2))
    ensures Lands(batch, k, raises, run1) <==> Lands(batch, k, raises, run2)
  {
    TrackedRowsAgain(RawStore.Amendment, Entities(batch), run1, run2);
    AcceptableAgain(BatchRows(batch, run1), BatchRows(batch, run2));
  }

  lemma BatchWrites(before: seq<Write>, batch: seq<Amendment>, tracking: Cols, a: Address)
    ensures Written(before + BatchRows(batch, tracking), a) == Written(before, a) + Written(BatchRows(batch, tracking), a)
    ensures !Names(batch, a) ==> Written(before + BatchRows(batch, tracking), a) == Written(before, a)
  {
    var rows := BatchRows(batch, tracking);
    WrittenAppend(before, rows, a);
    NamedByRows(batch, tracking, a);
    if !Names(batch, a) {
      WrittenElsewhere(rows, a);
      assert Written(before, a) + map[] == Written(before, a);
    }
  }

  lemma {:induction false} WrittenAlike(batches: seq<seq<Amendment>>, raises1: Weather, raises2: Weather, run1: Cols, run2: Cols, a: Address)
    requires IsBookkeeping(run1) && run1.Keys == run2.Keys && LandAlike(batches, raises1, raises2, run1, a)
    ensures SameValues(Written(LandedRows(batches, raises1, run1), a), Written(LandedRows(batches, raises2, run2), a))
  {
    if batches == [] {
    } else {
      var k := |batches| - 1;
      assert LandAlike(batches[..k], raises1, raises2, run1, a);
      WrittenAlike(batches[..k], raises1, raises2, run1, run2, a);
      BatchWrites(LandedRows(batches[..k], raises1, run1), batches[k], run1, a);
      BatchWrites(LandedRows(batches[..k], raises2, run2), batches[k], run2, a);
      BatchLandsAgain(batches[k], k, raises2, run1, run2);
      WrittenAgain(BatchRows(batches[k], run1), BatchRows(batches[k], run2), a);
    }
  }

  lemma LandsAtAgain(batches: seq<seq<Amendment>>, raises: Weather, run1: Cols, run2: Cols, a: Address)
    requires IsBookkeeping(run1) && run1.Keys == run2.Keys
    ensures LandsAt(batches, raises, run1, a) <==> LandsAt(batches, raises, run2, a)
  {
    forall k | 0 <= k < |batches| ensures Lands(batches[k], k, raises, run1) <==> Lands(batches[k], k, raises, run2) {
      BatchLandsAgain(batches[k], k, raises, run1, run2);
    }
  }

  /**
   A collection run again over the same stream, whichever flushes raise in either run: `created` is
   the number of rows added, those at the addresses of batches that land now and that nothing held;
   no row is lost or renumbered, and a row changes content only if one of its batches landed in one
   run and not in the other.
   */
  lemma SecondCollection(s: Store, stream: seq<Amendment>, raises1: Weather, raises2: Weather, run1: Cols, run2: Cols, t1: int, t2: int, a: Address)
    requires IsBookkeeping(run1) && run1.Keys == run2.Keys
    ensures var batches := Batches(stream);
            var s1 := AllFlushed(State(s, EMPTY), batches, raises1, run1, t1).db;
            var again := AllFlushed(State(s1, EMPTY), batches, raises2, run2, t2);
            && again.report.created == |again.db.rows.Keys| - |s1.rows.Keys|
            && (a in again.db.rows <==> a in s1.rows || LandsAt(batches, raises2, run1, a))
            && (a in again.db.rows && a !in s1.rows ==> !LandsAt(batches, raises1, run1, a))
            && (a in s1.rows ==> again.db.rows[a].id == s1.rows[a].id && again.db.rows[a].createdAt == s1.rows[a].createdAt)
            && (a in s1.rows && LandAlike(batches, raises1, raises2, run1, a) ==> SameRow(s1.rows[a], again.db.rows[a]))
  {
    var batches := Batches(stream);
    var s1 := AllFlushed(State(s, EMPTY), batches, raises1, run1, t1).db;
    var ws1, ws2 := LandedRows(batches, raises1, run1), LandedRows(batches, raises2, run2);
    RunStoresWhatLands(s, batches, raises1, run1, t1);
    RunStoresWhatLands(s1, batches, raises2, run2, t2);
    CreatedIsGrowth(s1, batches, raises2, run2, t2);
    RowAfter(s, ws1, t1, a);
    RowAfter(s1, ws2, t2, a);
    LandedAddresses(batches, raises1, run1, a);
    LandedAddresses(batches, raises2, run2, a);
    LandsAtAgain(batches, raises2, run1, run2, a);
    if a in s1.rows && LandAlike(batches, raises1, raises2, run1, a) {
      WrittenAlike(batches, raises1, raises2, run1, run2, a);
      RowWrittenAgain(s, ws1, ws2, t1, t2, a);
    }
  }

  lemma {:induction false} LandedRowsAgain(batches: seq<seq<Amendment>>, raises: Weather, run1: Cols, run2: Cols)
    requires IsBookkeeping(run1) && run1.Keys == run2.Keys
    ensures SameWrites(LandedRows(batches, raises, run1), LandedRows(batches, raises, run2))
  {
    if batches == [] {
    } else {
      var k := |batches| - 1;
      LandedRowsAgain(batches[..k], raises, run1, run2);
      BatchLandsAgain(batches[k], k, raises, run1, run2);
      SameWritesJoin(LandedRows(batches[..k], raises, run1), LandedRows(batches[..k], raises, run2),
                     BatchRows(batches[k], run1), BatchRows(batches[k], run2));
    }
  }

  /** In particular when the same flushes raise in both: `created: 0`, and no content changed. */
  lemma SecondCollectionIsIdle(s: Store, stream: seq<Amendment>, raises: Weather, run1: Cols, run2: Cols, t1: int, t2: int)
    requires IsBookkeeping(run1) && run1.Keys == run2.Keys
    ensures var s1 := AllFlushed(State(s, EMPTY), Batches(stream), raises, run1, t1).db;
            var again := AllFlushed(State(s1, EMPTY), Batches(stream), raises, run2, t2);
            && again.report.created == 0 && SameContent(s1, again.db)
            && (NoConflict(LandedRows(Batches(stream), raises, run1)) ==> SameTimes(s1, again.db))
  {
    var batches := Batches(stream);
    var ws1, ws2 := LandedRows(batches, raises, run1), LandedRows(batches, raises, run2);
    RunStoresWhatLands(s, batches, raises, run1, t1);
    var s1 := AllFlushed(State(s, EMPTY), batches, raises, run1, t1).db;
    RunStoresWhatLands(s1, batches, raises, run2, t2);
    LandedRowsAgain(batches, raises, run1, run2);
    SecondRunChangesNoContent(s, ws1, ws2, t1, t2);
    CreatedIsGrowth(s1, batches, raises, run2, t2);
    if NoConflict(ws1) { SecondRunMovesNoTime(s, ws1, ws2, t1, t2); }
  }
}

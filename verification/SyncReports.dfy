/** Execution reports: counters, a bounded sample of failing uids, and the merge of several reports. */
module SyncReports {
  import opened Prelude

  const ERROR_SAMPLE_SIZE: nat := 20

  datatype Report = Report(processed: nat, created: nat, updated: nat, skipped: nat, failed: nat, errors: seq<string>)

  const EMPTY := Report(0, 0, 0, 0, 0, [])

  /** Python's s[:n], where a negative n counts from the end. */
  function Slice<T>(s: seq<T>, n: int): seq<T> {
    if n >= 0 then s[..Min(n, |s|)]
    else if |s| + n >= 0 then s[..|s| + n]
    else []
  }

  function Sample(uids: seq<string>): seq<string> { uids[..Min(ERROR_SAMPLE_SIZE, |uids|)] }

  lemma SampleGrows(errors: seq<string>, uid: string)
    ensures forall uids :: errors == Sample(uids) ==>
              Sample(uids + [uid]) == if |errors| < ERROR_SAMPLE_SIZE then errors + [uid] else errors
  {
  }

  function FailOne(r: Report, uid: string): Report {
    r.(failed := r.failed + 1,
       errors := if |r.errors| < ERROR_SAMPLE_SIZE then r.errors + [uid] else r.errors)
  }

  class SyncReport {
    var processed: nat
    var created: nat
    var updated: nat
    var skipped: nat
    var failed: nat
    var errors: seq<string>

    function Value(): Report
      reads this
    {
      Report(processed, created, updated, skipped, failed, errors)
    }

    constructor ()
      ensures Value() == EMPTY
    {
      processed, created, updated, skipped, failed, errors := 0, 0, 0, 0, 0, [];
    }

    method RecordFailure(uid: string)
      modifies this
      ensures Value() == FailOne(old(Value()), uid)
      ensures forall uids :: old(errors) == Sample(uids) ==> errors == Sample(uids + [uid])
    {
      failed := failed + 1;
      if |errors| < ERROR_SAMPLE_SIZE {
        errors := errors + [uid];
      }
      SampleGrows(old(errors), uid);
    }
  }

  /** The report after these items failed, one by one. */
  function Failing(r: Report, uids: seq<string>): Report {
    if uids == [] then r else FailOne(Failing(r, uids[..|uids| - 1]), uids[|uids| - 1])
  }

  lemma {:induction false} FailingIsSample(r: Report, known: seq<string>, uids: seq<string>)
    requires r.errors == Sample(known)
    ensures Failing(r, uids) == r.(failed := r.failed + |uids|, errors := Sample(known + uids))
  {
    if uids == [] {
      assert known + uids == known;
    } else {
      var init, last := uids[..|uids| - 1], uids[|uids| - 1];
      FailingIsSample(r, known, init);
      assert known + uids == known + init + [last];
      SampleGrows(Failing(r, init).errors, last);
    }
  }

  // ---------------------------------------------------------------- a run, item by item

  datatype Outcome = Created | Updated | Skipped | Failed(uid: string)

  function Count(r: Report, o: Outcome): Report {
    var r' := r.(processed := r.processed + 1);
    match o
    case Created => r'.(created := r.created + 1)
    case Updated => r'.(updated := r.updated + 1)
    case Skipped => r'.(skipped := r.skipped + 1)
    case Failed(uid) => FailOne(r', uid)
  }

  /** The report of a run over a stream of items. */
  function RunReport(items: seq<Outcome>): Report {
    if items == [] then EMPTY else Count(RunReport(items[..|items| - 1]), items[|items| - 1])
  }

  function FailingUids(items: seq<Outcome>): seq<string> {
    if items == [] then []
    else
      var before, last := FailingUids(items[..|items| - 1]), items[|items| - 1];
      if last.Failed? then before + [last.uid] else before
  }

  /** The sample of a run is its first 20 failing uids, and each item is counted once. */
  lemma {:induction false} RunReportIs(items: seq<Outcome>)
    ensures var r := RunReport(items);
            && r.errors == Sample(FailingUids(items))
            && r.failed == |FailingUids(items)|
            && |r.errors| == Min(ERROR_SAMPLE_SIZE, r.failed)
            && r.processed == |items| == r.created + r.updated + r.skipped + r.failed
  {
    if items == [] {
    } else {
      var init, last := items[..|items| - 1], items[|items| - 1];
      RunReportIs(init);
      if last.Failed? {
        SampleGrows(RunReport(init).errors, last.uid);
      }
    }
  }

  // ---------------------------------------------------------------- merging

  function Plus(total: Report, r: Report): Report {
    Report(total.processed + r.processed, total.created + r.created, total.updated + r.updated,
           total.skipped + r.skipped, total.failed + r.failed,
           total.errors + Slice(r.errors, ERROR_SAMPLE_SIZE - |total.errors|))
  }

  function Merged(reports: seq<Report>): Report {
    if reports == [] then EMPTY else Plus(Merged(reports[..|reports| - 1]), reports[|reports| - 1])
  }

  /** One turn of the merging loop. The slice bound is never negative. */
  method Add(t: SyncReport, r: Report)
    requires |t.errors| <= ERROR_SAMPLE_SIZE
    modifies t
    ensures t.Value() == Plus(old(t.Value()), r)
    ensures |t.errors| <= ERROR_SAMPLE_SIZE
  {
    t.processed := t.processed + r.processed;
    t.created := t.created + r.created;
    t.updated := t.updated + r.updated;
    t.skipped := t.skipped + r.skipped;
    t.failed := t.failed + r.failed;
    var bound := ERROR_SAMPLE_SIZE - |t.errors|;
    assert bound >= 0;
    t.errors := t.errors + Slice(r.errors, bound);
  }

  /** One report for a step run once per dossier. */
  method Merge(reports: seq<Report>) returns (total: Report)
    ensures total == Merged(reports)
    ensures |total.errors| <= ERROR_SAMPLE_SIZE
  {
    var t := new SyncReport();
    for k := 0 to |reports|
      invariant t.Value() == Merged(reports[..k])
      invariant |t.errors| <= ERROR_SAMPLE_SIZE
    {
      assert reports[..k + 1][..k] == reports[..k];
      Add(t, reports[k]);
    }
    assert reports[..|reports|] == reports;
    total := t.Value();
  }

  function Reports(streams: seq<seq<Outcome>>): seq<Report> {
    seq(|streams|, i requires 0 <= i < |streams| => RunReport(streams[i]))
  }

  lemma {:induction false} FailuresConcatenate(a: seq<Outcome>, b: seq<Outcome>)
    ensures FailingUids(a + b) == FailingUids(a) + FailingUids(b)
  {
    if b == [] {
      assert a + b == a;
    } else {
      assert (a + b)[..|a + b| - 1] == a + b[..|b| - 1];
      FailuresConcatenate(a, b[..|b| - 1]);
    }
  }

  ghost predicate CountersAddUp(r: Report, x: Report, y: Report) {
    && r.processed == x.processed + y.processed && r.created == x.created + y.created
    && r.updated == x.updated + y.updated && r.skipped == x.skipped + y.skipped && r.failed == x.failed + y.failed
  }

  lemma PlusIsDetermined(r: Report, x: Report, y: Report)
    requires CountersAddUp(r, x, y) && r.errors == Plus(x, y).errors
    ensures r == Plus(x, y)
  {
  }

  lemma {:induction false} CountersConcatenate(a: seq<Outcome>, b: seq<Outcome>)
    ensures CountersAddUp(RunReport(a + b), RunReport(a), RunReport(b))
  {
    if b == [] {
      assert a + b == a;
    } else {
      assert (a + b)[..|a + b| - 1] == a + b[..|b| - 1];
      CountersConcatenate(a, b[..|b| - 1]);
    }
  }

  lemma SampleOfBoth(a: seq<string>, b: seq<string>)
    ensures Sample(a + b) == Sample(a) + Slice(Sample(b), ERROR_SAMPLE_SIZE - |Sample(a)|)
  {
  }

  lemma ErrorsConcatenate(a: seq<Outcome>, b: seq<Outcome>)
    ensures RunReport(a + b).errors == Plus(RunReport(a), RunReport(b)).errors
  {
    FailuresConcatenate(a, b);
    RunReportIs(a);
    RunReportIs(b);
    RunReportIs(a + b);
    SampleOfBoth(FailingUids(a), FailingUids(b));
  }

  lemma PlusIsConcatenation(a: seq<Outcome>, b: seq<Outcome>)
    ensures Plus(RunReport(a), RunReport(b)) == RunReport(a + b)
  {
    CountersConcatenate(a, b);
    ErrorsConcatenate(a, b);
    PlusIsDetermined(RunReport(a + b), RunReport(a), RunReport(b));
  }

  /** Merging the reports of several runs is reporting on one run over all their items. */
  lemma {:induction false} MergeIsOneRun(streams: seq<seq<Outcome>>)
    ensures Merged(Reports(streams)) == RunReport(Flatten(streams))
  {
    if streams == [] {
    } else {
      var init, last := streams[..|streams| - 1], streams[|streams| - 1];
      assert Reports(streams)[..|streams| - 1] == Reports(init);
      MergeIsOneRun(init);
      PlusIsConcatenation(Flatten(init), last);
    }
  }

  /** Not empty, and at most one item in five failed. */
  predicate IsOk(r: Report) { r.processed > 0 && 5 * r.failed <= r.processed }

  /** The failure rate as a quotient. */
  function FailureRate(r: Report): real
    requires r.processed != 0
  {
    r.failed as real / r.processed as real
  }

  lemma QuotientAtMost(a: real, b: real, c: real)
    requires b > 0.0
    ensures a / b <= c <==> a <= c * b
  {
    assert a == (a / b) * b;
  }

  /** A run is ok iff it had items and its failure rate is at most 0.2. */
  lemma IsOkIff(r: Report)
    ensures IsOk(r) <==> r.processed != 0 && FailureRate(r) <= 0.2
  {
    if r.processed != 0 { QuotientAtMost(r.failed as real, r.processed as real, 0.2); }
  }

  /** If no run is worse than one failure in five, neither is their merge; it is ok unless all were empty. */
  lemma {:induction false} MergeOfOkRuns(reports: seq<Report>)
    requires forall r :: r in reports ==> 5 * r.failed <= r.processed
    ensures 5 * Merged(reports).failed <= Merged(reports).processed
    ensures IsOk(Merged(reports)) <==> exists r :: r in reports && IsOk(r)
  {
    if reports == [] {
    } else {
      var init, last := reports[..|reports| - 1], reports[|reports| - 1];
      assert last in reports && forall r :: r in reports <==> r in init || r == last;
      MergeOfOkRuns(init);
    }
  }
}

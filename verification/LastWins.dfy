/**
 Dictionaries filled from the rows of a query, where the last row that names a key decides.
 When the query leaves the order of some rows open, the answer may depend on it: here is when.
 */
module LastWins {
  import opened Prelude

  /** What one row says of one key, if anything. */
  type Says<!S, !K, +V> = (S, K) -> Option<V>

  function LastAnswer<S, K, V>(says: Says<S, K, V>, rows: seq<S>, k: K): Option<V> {
    if rows == [] then None
    else
      var said := says(rows[|rows| - 1], k);
      if said.Some? then said else LastAnswer(says, rows[..|rows| - 1], k)
  }

  /** ORDER BY rank: it says nothing of rows with one rank. */
  ghost predicate Ranked<S>(rank: S -> int, rows: seq<S>) {
    forall i, j :: 0 <= i < j < |rows| ==> rank(rows[i]) <= rank(rows[j])
  }

  /** Another listing that the query may return. */
  ghost predicate IsReordering<S>(rank: S -> int, rows: seq<S>, other: seq<S>) {
    Permuted(rows, other) && Ranked(rank, other)
  }

  /** The row answers, and no row that answers comes after its rank. */
  ghost predicate IsTop<S(!new), K, V>(says: Says<S, K, V>, rank: S -> int, rows: seq<S>, k: K, s: S) {
    && s in rows && says(s, k).Some?
    && forall t :: t in rows && says(t, k).Some? ==> rank(t) <= rank(s)
  }

  ghost predicate TopsAgree<S(!new), K, V>(says: Says<S, K, V>, rank: S -> int, rows: seq<S>, k: K) {
    forall s, t :: IsTop(says, rank, rows, k, s) && IsTop(says, rank, rows, k, t) ==> says(s, k) == says(t, k)
  }

  lemma {:induction false} LastAnswerAppend<S, K, V>(says: Says<S, K, V>, a: seq<S>, b: seq<S>, k: K)
    ensures LastAnswer(says, a + b, k) == if LastAnswer(says, b, k).Some? then LastAnswer(says, b, k) else LastAnswer(says, a, k)
  {
    if b == [] {
      assert a + b == a;
    } else {
      assert (a + b)[..|a + b| - 1] == a + b[..|b| - 1];
      LastAnswerAppend(says, a, b[..|b| - 1], k);
    }
  }

  lemma {:induction false} SilentRows<S(!new), K, V>(says: Says<S, K, V>, rows: seq<S>, k: K)
    ensures LastAnswer(says, rows, k).None? <==> forall s :: s in rows ==> says(s, k).None?
  {
    if rows == [] {
    } else {
      var init, last := rows[..|rows| - 1], rows[|rows| - 1];
      SilentRows(says, init, k);
      assert forall s :: s in rows <==> s in init || s == last;
    }
  }

  /** No later row answers. */
  ghost predicate DecidedAt<S, K, V>(says: Says<S, K, V>, rows: seq<S>, k: K, i: int) {
    0 <= i < |rows| && says(rows[i], k).Some? && forall j :: i < j < |rows| ==> says(rows[j], k).None?
  }

  /** The last row that answers decides. */
  lemma AnswerOfLast<S(!new), K, V>(says: Says<S, K, V>, rows: seq<S>, k: K, i: nat)
    requires DecidedAt(says, rows, k, i)
    ensures LastAnswer(says, rows, k) == says(rows[i], k)
  {
    assert rows == rows[..i + 1] + rows[i + 1..];
    SilentRows(says, rows[i + 1..], k);
    LastAnswerAppend(says, rows[..i + 1], rows[i + 1..], k);
  }

  lemma {:induction false} SomeRowDecides<S, K, V>(says: Says<S, K, V>, rows: seq<S>, k: K)
    requires LastAnswer(says, rows, k).Some?
    ensures exists i :: DecidedAt(says, rows, k, i) && says(rows[i], k) == LastAnswer(says, rows, k)
  {
    var init, n := rows[..|rows| - 1], |rows| - 1;
    if says(rows[n], k).Some? {
      assert DecidedAt(says, rows, k, n);
    } else {
      SomeRowDecides(says, init, k);
      var i :| DecidedAt(says, init, k, i) && says(init[i], k) == LastAnswer(says, rows, k);
      assert DecidedAt(says, rows, k, i);
    }
  }

  /** A row that alone answers decides, wherever it stands. */
  lemma OnlyAnswer<S(!new), K, V>(says: Says<S, K, V>, rows: seq<S>, k: K, s: S)
    requires s in rows && forall t :: t in rows && says(t, k).Some? ==> t == s
    ensures LastAnswer(says, rows, k) == says(s, k)
  {
    SilentRows(says, rows, k);
    if LastAnswer(says, rows, k).Some? {
      SomeRowDecides(says, rows, k);
      var i :| DecidedAt(says, rows, k, i) && says(rows[i], k) == LastAnswer(says, rows, k);
      assert rows[i] in rows;
    }
  }

  /** The answer is that of one of the rows of the highest rank that answer. */
  lemma {:induction false} LastIsTop<S(!new), K, V>(says: Says<S, K, V>, rank: S -> int, rows: seq<S>, k: K)
    requires Ranked(rank, rows) && LastAnswer(says, rows, k).Some?
    ensures exists s :: IsTop(says, rank, rows, k, s) && says(s, k) == LastAnswer(says, rows, k)
  {
    var init, last := rows[..|rows| - 1], rows[|rows| - 1];
    assert forall s :: s in rows <==> s in init || s == last;
    if says(last, k).Some? {
      forall t | t in rows ensures rank(t) <= rank(last) {
        var i :| 0 <= i < |rows| && rows[i] == t;
      }
      assert IsTop(says, rank, rows, k, last);
    } else {
      LastIsTop(says, rank, init, k);
      var s :| IsTop(says, rank, init, k, s) && says(s, k) == LastAnswer(says, rows, k);
      assert IsTop(says, rank, rows, k, s);
    }
  }

  /** When the rows that may come last say the same, every listing gives one answer. */
  lemma SameAnswer<S(!new), K, V>(says: Says<S, K, V>, rank: S -> int, rows: seq<S>, other: seq<S>, k: K)
    requires Ranked(rank, rows) && IsReordering(rank, rows, other) && TopsAgree(says, rank, rows, k)
    ensures LastAnswer(says, other, k) == LastAnswer(says, rows, k)
  {
    PermutedMembers(rows, other);
    SilentRows(says, rows, k);
    SilentRows(says, other, k);
    if LastAnswer(says, rows, k).Some? {
      LastIsTop(says, rank, rows, k);
      LastIsTop(says, rank, other, k);
      var s :| IsTop(says, rank, rows, k, s) && says(s, k) == LastAnswer(says, rows, k);
      var t :| IsTop(says, rank, other, k, t) && says(t, k) == LastAnswer(says, other, k);
      assert IsTop(says, rank, rows, k, t);
    }
  }

  /** How many rows, from the first, stand at or below a rank. */
  function UpTo<S>(rank: S -> int, rows: seq<S>, r: int): (n: nat)
    ensures n <= |rows|
    ensures forall i :: 0 <= i < n ==> rank(rows[i]) <= r
    ensures n < |rows| ==> rank(rows[n]) > r
  {
    if rows == [] || rank(rows[0]) > r then 0 else 1 + UpTo(rank, rows[1..], r)
  }

  lemma RankedJoin<S>(rank: S -> int, a: seq<S>, b: seq<S>, r: int)
    requires Ranked(rank, a) && Ranked(rank, b)
    requires (forall s :: s in a ==> rank(s) <= r) && (forall s :: s in b ==> rank(s) >= r)
    ensures Ranked(rank, a + b)
  {
    forall i, j | 0 <= i < j < |a + b| ensures rank((a + b)[i]) <= rank((a + b)[j]) {
      if i < |a| <= j { assert a[i] in a && b[j - |a|] in b; }
    }
  }

  lemma RankedPart<S>(rank: S -> int, rows: seq<S>, i: nat, j: nat)
    requires Ranked(rank, rows) && i <= j <= |rows|
    ensures Ranked(rank, rows[i..j])
    ensures i > 0 ==> forall s :: s in rows[i..j] ==> rank(rows[i - 1]) <= rank(s)
    ensures j < |rows| ==> forall s :: s in rows[i..j] ==> rank(s) <= rank(rows[j])
  {
  }

  lemma Moved<S>(rows: seq<S>, i: nat, n: nat)
    requires i < n <= |rows|
    ensures Permuted(rows, rows[..i] + rows[i + 1..n] + [rows[i]] + rows[n..])
  {
    var a, b, c := rows[..i], rows[i + 1..n], rows[n..];
    assert rows == a + ([rows[i]] + b) + c;
  }

  /** Row `i` moved to the end of the rows of its rank. */
  lemma MovedDown<S>(rank: S -> int, rows: seq<S>, i: nat) returns (before: seq<S>, after: seq<S>)
    requires Ranked(rank, rows) && i < |rows|
    ensures IsReordering(rank, rows, before + [rows[i]] + after)
    ensures forall t :: t in after ==> t in rows && rank(t) > rank(rows[i])
  {
    var s, r := rows[i], rank(rows[i]);
    var n := UpTo(rank, rows, r);
    var a, b := rows[..i], rows[i + 1..n];
    before, after := a + b, rows[n..];
    RankedPart(rank, rows, 0, i);
    RankedPart(rank, rows, i + 1, n);
    RankedPart(rank, rows, n, |rows|);
    RankedJoin(rank, a, b, r);
    RankedJoin(rank, before, [s], r);
    RankedJoin(rank, before + [s], after, r);
    Moved(rows, i, n);
  }

  /** A row that may come last does so in some listing. */
  lemma TopMayComeLast<S(!new), K, V>(says: Says<S, K, V>, rank: S -> int, rows: seq<S>, k: K, s: S) returns (other: seq<S>)
    requires Ranked(rank, rows) && IsTop(says, rank, rows, k, s)
    ensures IsReordering(rank, rows, other) && LastAnswer(says, other, k) == says(s, k)
  {
    var i :| 0 <= i < |rows| && rows[i] == s;
    var before, after := MovedDown(rank, rows, i);
    other := before + [s] + after;
    SilentRows(says, after, k);
    LastAnswerAppend(says, before + [s], after, k);
    assert (before + [s])[..|before|] == before;
  }

  /** Every listing of the rows gives the same answer iff the rows that may come last say the same. */
  lemma AnyOrderIff<S(!new), K, V>(says: Says<S, K, V>, rank: S -> int, rows: seq<S>, k: K)
    requires Ranked(rank, rows)
    ensures (forall other :: IsReordering(rank, rows, other) ==> LastAnswer(says, other, k) == LastAnswer(says, rows, k))
       <==> TopsAgree(says, rank, rows, k)
  {
    if TopsAgree(says, rank, rows, k) {
      forall other | IsReordering(rank, rows, other) ensures LastAnswer(says, other, k) == LastAnswer(says, rows, k) {
        SameAnswer(says, rank, rows, other, k);
      }
    } else {
      var s, t :| IsTop(says, rank, rows, k, s) && IsTop(says, rank, rows, k, t) && says(s, k) != says(t, k);
      var a := TopMayComeLast(says, rank, rows, k, s);
      var b := TopMayComeLast(says, rank, rows, k, t);
    }
  }

  // ---------------------------------------------------------------- whole dictionaries, and no order at all

  function Get<K, V>(m: map<K, V>, k: K): Option<V> { if k in m then Some(m[k]) else None }

  /** The dictionary answers like the rows it was filled from. */
  ghost predicate Answers<S, K(!new), V>(m: map<K, V>, says: Says<S, K, V>, rows: seq<S>) {
    forall k :: Get(m, k) == LastAnswer(says, rows, k)
  }

  /** Rows that answer one key answer alike. */
  ghost predicate Agree<S(!new), K(!new), V>(says: Says<S, K, V>, rows: seq<S>) {
    forall s, t, k :: s in rows && t in rows && says(s, k).Some? && says(t, k).Some? ==> says(s, k) == says(t, k)
  }

  function Unordered<S>(): S -> int { s => 0 }

  lemma SameDictionary<K, V>(m: map<K, V>, m': map<K, V>)
    requires forall k :: Get(m, k) == Get(m', k)
    ensures m == m'
  {
    forall k ensures (k in m <==> k in m') && (k in m ==> m[k] == m'[k]) { assert Get(m, k) == Get(m', k); }
  }

  lemma AgreeIsEveryTop<S(!new), K(!new), V>(says: Says<S, K, V>, rows: seq<S>)
    ensures Agree(says, rows) <==> forall k :: TopsAgree(says, Unordered(), rows, k)
  {
    if forall k :: TopsAgree(says, Unordered(), rows, k) {
      forall s, t, k | s in rows && t in rows && says(s, k).Some? && says(t, k).Some? ensures says(s, k) == says(t, k) {
        assert TopsAgree(says, Unordered(), rows, k);
        assert IsTop(says, Unordered(), rows, k, s) && IsTop(says, Unordered(), rows, k, t);
      }
    }
  }

  /** Without an ORDER BY: all listings fill one dictionary iff rows that answer one key answer alike. */
  lemma AnyListingIff<S(!new), K(!new), V>(says: Says<S, K, V>, filled: seq<S> -> map<K, V>, rows: seq<S>)
    requires forall other :: Permuted(rows, other) ==> Answers(filled(other), says, other)
    ensures (forall other :: Permuted(rows, other) ==> filled(other) == filled(rows)) <==> Agree(says, rows)
  {
    AgreeIsEveryTop(says, rows);
    if Agree(says, rows) {
      forall other | Permuted(rows, other) ensures filled(other) == filled(rows) {
        forall k ensures Get(filled(other), k) == Get(filled(rows), k) {
          SameAnswer(says, Unordered(), rows, other, k);
        }
        SameDictionary(filled(other), filled(rows));
      }
    } else {
      var k :| !TopsAgree(says, Unordered(), rows, k);
      AnyOrderIff(says, Unordered(), rows, k);
      var other :| IsReordering(Unordered(), rows, other) && LastAnswer(says, other, k) != LastAnswer(says, rows, k);
      assert Get(filled(other), k) != Get(filled(rows), k);
    }
  }

  /** Answers translated row by row are translated as a whole. */
  lemma {:induction false} TranslatedAnswer<S(!new), K, V, W>(says: Says<S, K, V>, said: Says<S, K, W>, f: V -> W, rows: seq<S>, k: K)
    requires forall s :: s in rows ==> said(s, k) == if says(s, k).Some? then Some(f(says(s, k).value)) else None
    ensures LastAnswer(said, rows, k) == if LastAnswer(says, rows, k).Some? then Some(f(LastAnswer(says, rows, k).value)) else None
  {
    if rows == [] {
    } else {
      var init := rows[..|rows| - 1];
      assert rows[|rows| - 1] in rows && forall s :: s in init ==> s in rows;
      TranslatedAnswer(says, said, f, init, k);
    }
  }

  lemma {:induction false} SameRowByRow<S, T, K, L, V>(says: Says<S, K, V>, rows: seq<S>, k: K, said: Says<T, L, V>, others: seq<T>, l: L)
    requires |rows| == |others| && forall i :: 0 <= i < |rows| ==> says(rows[i], k) == said(others[i], l)
    ensures LastAnswer(says, rows, k) == LastAnswer(said, others, l)
  {
    if rows == [] {
    } else {
      SameRowByRow(says, rows[..|rows| - 1], k, said, others[..|others| - 1], l);
    }
  }
}

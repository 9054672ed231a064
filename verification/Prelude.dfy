/** Small vocabulary shared by every component of the model. */
module Prelude {
  datatype Option<+T> = None | Some(value: T)

  datatype Result<+T, +E> = Ok(value: T) | Err(error: E)

  ghost predicate Distinct<T>(s: seq<T>) {
    forall i, j :: 0 <= i < j < |s| ==> s[i] != s[j]
  }

  function Min(a: int, b: int): int { if a <= b then a else b }

  /** 9999-12-31 as a day number: Python's date.max. */
  const DATE_MAX: int := 3652059

  // ---------------------------------------------------------------- texts

  /** Neither None nor empty. */
  predicate Truthy(s: Option<string>) { s.Some? && s.value != "" }

  function LowerAscii(c: char): char { if 'A' <= c <= 'Z' then ((c as int) + 32) as char else c }

  const UPPER := "ABCDEFGHIJKLMNOPQRSTUVWXYZ"
  const LOWER := "abcdefghijklmnopqrstuvwxyz"

  lemma LowerAsciiIs(c: char)
    ensures forall k :: 0 <= k < 26 ==> LowerAscii(UPPER[k]) == LOWER[k]
    ensures c !in UPPER ==> LowerAscii(c) == c
  {
    if 'A' <= c <= 'Z' { assert c == UPPER[c as int - 'A' as int]; }
  }

  predicate EndsWith(s: string, suffix: string) {
    |suffix| <= |s| && s[|s| - |suffix|..] == suffix
  }

  lemma EndsWithIff(s: string, suffix: string)
    ensures EndsWith(s, suffix) <==> exists before :: s == before + suffix
  {
    if EndsWith(s, suffix) { assert s == s[..|s| - |suffix|] + suffix; }
  }

  lemma LastTwo(s: string, suffix: string)
    requires EndsWith(s, suffix) && |suffix| >= 2
    ensures |s| >= 2 && s[|s| - 2..] == suffix[|suffix| - 2..]
  {
    assert s[|s| - |suffix|..][|suffix| - 2..] == s[|s| - 2..];
  }

  /** Two endings that differ in one of their last two letters exclude each other. */
  lemma OtherEnding(s: string, suffix: string, other: string)
    requires EndsWith(s, suffix) && |suffix| >= 2 && |other| >= 2 && suffix[|suffix| - 2..] != other[|other| - 2..]
    ensures !EndsWith(s, other)
  {
    LastTwo(s, suffix);
    if EndsWith(s, other) { LastTwo(s, other); }
  }

  /** str.rstrip, for the characters to drop. */
  function RStrip(drop: char -> bool, s: string): string {
    if s != [] && drop(s[|s| - 1]) then RStrip(drop, s[..|s| - 1]) else s
  }

  /** sep.join(ss) */
  function Join(sep: string, ss: seq<string>): string {
    if ss == [] then "" else if |ss| == 1 then ss[0] else ss[0] + sep + Join(sep, ss[1..])
  }

  /** One more text: after a separator, unless it is the first. */
  lemma {:induction false} JoinSnoc(sep: string, ss: seq<string>, x: string)
    ensures Join(sep, ss + [x]) == if ss == [] then x else Join(sep, ss) + sep + x
  {
    if ss == [] {
    } else {
      assert (ss + [x])[1..] == ss[1..] + [x];
      JoinSnoc(sep, ss[1..], x);
    }
  }

  // ---------------------------------------------------------------- uids of legislative documents

  /** PRJL*AN*R5L17B2681: the two letters after the kind say where the document was deposited. */
  predicate FromAssemblee(uid: string) { |uid| >= 6 && uid[4..6] == "AN" }

  /** As deposited (B), as adopted by the commission (BTC), as adopted in séance (BTA). */
  datatype TextKind = Deposited | Commission | Adopted

  // ---------------------------------------------------------------- sequences of sequences

  function Flatten<T>(ss: seq<seq<T>>): seq<T> {
    if ss == [] then [] else Flatten(ss[..|ss| - 1]) + ss[|ss| - 1]
  }

  lemma {:induction false} FlattenCons<T>(s: seq<T>, ss: seq<seq<T>>)
    ensures Flatten([s] + ss) == s + Flatten(ss)
  {
    if ss == [] {
      assert [s] + ss == [s] && [s][..0] == [];
    } else {
      assert ([s] + ss)[..|ss|] == [s] + ss[..|ss| - 1];
      FlattenCons(s, ss[..|ss| - 1]);
    }
  }

  // ---------------------------------------------------------------- the same elements in another order

  ghost predicate Permuted<T>(a: seq<T>, b: seq<T>) { multiset(a) == multiset(b) }

  lemma PermutedMembers<T>(a: seq<T>, b: seq<T>)
    requires Permuted(a, b)
    ensures forall x :: x in a <==> x in b
  {
    forall x ensures x in a <==> x in b { assert x in multiset(a) <==> x in multiset(b); }
  }

  lemma Swapped<T>(x: T, y: T)
    ensures Permuted([x, y], [y, x])
  {
    assert [x, y] == [x] + [y] && [y, x] == [y] + [x];
  }

  lemma TakenOut<T>(s: seq<T>, i: nat)
    requires i < |s|
    ensures multiset(s) == multiset(s[..i] + s[i + 1..]) + multiset{s[i]}
  {
    assert s == s[..i] + [s[i]] + s[i + 1..];
  }

  /** What `f` says of each element, where it says something. */
  function FilterMap<T, U>(f: T -> Option<U>, s: seq<T>): seq<U> {
    if s == [] then []
    else
      var before, said := FilterMap(f, s[..|s| - 1]), f(s[|s| - 1]);
      if said.Some? then before + [said.value] else before
  }

  lemma {:induction false} FilterMapMembers<T, U>(f: T -> Option<U>, s: seq<T>, y: U)
    ensures y in FilterMap(f, s) <==> exists x :: x in s && f(x) == Some(y)
  {
    if s == [] {
    } else {
      var init, last := s[..|s| - 1], s[|s| - 1];
      FilterMapMembers(f, init, y);
      assert forall x :: x in s <==> x in init || x == last;
    }
  }

  lemma {:induction false} FilterMapAppend<T, U>(f: T -> Option<U>, a: seq<T>, b: seq<T>)
    ensures FilterMap(f, a + b) == FilterMap(f, a) + FilterMap(f, b)
  {
    if b == [] {
      assert a + b == a;
    } else {
      assert (a + b)[..|a + b| - 1] == a + b[..|b| - 1];
      FilterMapAppend(f, a, b[..|b| - 1]);
    }
  }

  lemma FilterMapCons<T, U>(f: T -> Option<U>, s: seq<T>)
    requires s != []
    ensures FilterMap(f, s) == (if f(s[0]).Some? then [f(s[0]).value] else []) + FilterMap(f, s[1..])
  {
    assert s == [s[0]] + s[1..] && [s[0]][..0] == [];
    FilterMapAppend(f, [s[0]], s[1..]);
  }

  lemma MiddleOut<T>(a: seq<T>, x: seq<T>, b: seq<T>)
    ensures multiset(a + (x + b)) == multiset(a + b) + multiset(x)
  {
  }

  lemma FilterMapMiddle<T, U>(f: T -> Option<U>, a: seq<T>, x: seq<T>, b: seq<T>)
    ensures multiset(FilterMap(f, a + (x + b))) == multiset(FilterMap(f, a + b)) + multiset(FilterMap(f, x))
  {
    FilterMapAppend(f, a, b);
    FilterMapAppend(f, x, b);
    FilterMapAppend(f, a, x + b);
    MiddleOut(FilterMap(f, a), FilterMap(f, x), FilterMap(f, b));
  }

  lemma SameRest<T>(a: multiset<T>, b: multiset<T>, x: T)
    requires a + multiset{x} == b + multiset{x}
    ensures a == b
  {
    assert a == (a + multiset{x}) - multiset{x};
  }

  lemma SplitAround<T>(s: seq<T>, i: nat)
    requires i < |s|
    ensures s == s[..i] + ([s[i]] + s[i + 1..])
  {
  }

  lemma PlaceOfLast<T>(a: seq<T>, b: seq<T>) returns (i: nat)
    requires a != [] && Permuted(a, b)
    ensures i < |b| && b[i] == a[|a| - 1]
  {
    PermutedMembers(a, b);
    assert a[|a| - 1] in a;
    i :| 0 <= i < |b| && b[i] == a[|a| - 1];
  }

  /** `b` around the last element of `a`, and what is left of both. */
  lemma WithoutLast<T>(a: seq<T>, b: seq<T>) returns (x: seq<T>, y: seq<T>)
    requires a != [] && Permuted(a, b)
    ensures b == x + ([a[|a| - 1]] + y) && Permuted(a[..|a| - 1], x + y)
  {
    var i := PlaceOfLast(a, b);
    x, y := b[..i], b[i + 1..];
    SplitAround(b, i);
    TakenOut(b, i);
    TakenOut(a, |a| - 1);
    assert a[..|a| - 1] + a[|a| - 1 + 1..] == a[..|a| - 1];
    SameRest(multiset(a[..|a| - 1]), multiset(x + y), a[|a| - 1]);
  }

  lemma {:induction false} FilterMapPermutes<T, U>(f: T -> Option<U>, a: seq<T>, b: seq<T>)
    requires Permuted(a, b)
    ensures Permuted(FilterMap(f, a), FilterMap(f, b))
  {
    if a == [] {
      assert |multiset(b)| == 0;
    } else {
      var init, last := a[..|a| - 1], a[|a| - 1];
      var x, y := WithoutLast(a, b);
      FilterMapPermutes(f, init, x + y);
      assert a == init + [last];
      FilterMapAppend(f, init, [last]);
      FilterMapMiddle(f, x, [last], y);
    }
  }

  // ---------------------------------------------------------------- sequences without repeats

  lemma RepeatCounts<T>(s: seq<T>, i: nat, j: nat)
    requires i < j < |s| && s[i] == s[j]
    ensures multiset(s)[s[i]] >= 2
  {
    assert s == s[..j] + s[j..];
    assert s[..j][i] in multiset(s[..j]) && s[j..][0] in multiset(s[j..]);
  }

  lemma OnceEachIsDistinct<T>(s: seq<T>)
    requires forall x :: x in s ==> multiset(s)[x] <= 1
    ensures Distinct(s)
  {
    forall i, j | 0 <= i < j < |s| ensures s[i] != s[j] {
      if s[i] == s[j] {
        RepeatCounts(s, i, j);
        assert false;
      }
    }
  }

  lemma DistinctCountsOnce<T>(s: seq<T>, x: T)
    requires Distinct(s)
    ensures multiset(s)[x] == if x in s then 1 else 0
  {
    if x in s {
      var k :| 0 <= k < |s| && s[k] == x;
      TakenOut(s, k);
      assert x !in s[..k] && x !in s[k + 1..];
      assert x !in s[..k] + s[k + 1..];
    }
  }

  lemma PermutedDistinct<T>(a: seq<T>, b: seq<T>)
    requires Distinct(a) && Permuted(a, b)
    ensures Distinct(b)
  {
    forall x | x in b ensures multiset(b)[x] <= 1 { DistinctCountsOnce(a, x); }
    OnceEachIsDistinct(b);
  }

  lemma DistinctAppend<T>(a: seq<T>, b: seq<T>)
    requires Distinct(a) && Distinct(b) && forall x :: x in b ==> x !in a
    ensures Distinct(a + b)
  {
    forall i, j | 0 <= i < j < |a + b| ensures (a + b)[i] != (a + b)[j] {
      if i < |a| <= j {
        assert a[i] in a && b[j - |a|] in b;
      }
    }
  }
}

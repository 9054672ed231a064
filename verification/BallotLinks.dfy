/** From a scrutin to its law and its amendment, through indexes loaded once per run. */
module BallotLinks {
  import opened Prelude
  import opened Sorting
  import opened LastWins

  // ---------------------------------------------------------------- amendments

  /** raw uid and public id of an amendment. */
  datatype Hit = Hit(id: nat, uid: string)

  /** A séance amendment present on both sides, with its decision day. */
  datatype AmendmentRow = AmendmentRow(texte: string, number: Option<string>, day: Option<int>, hit: Hit)

  datatype Candidate = Candidate(hit: Hit, day: Option<int>)

  function AfterLastHyphen(s: string): string {
    if s == [] || s[|s| - 1] == '-' then [] else AfterLastHyphen(s[..|s| - 1]) + [s[|s| - 1]]
  }

  /** "II-1762" is kept under "1762" too: `number.rsplit("-", 1)[-1]`, when there is a hyphen and something after it. */
  function BareNumber(number: Option<string>): Option<string> {
    if number.Some? && '-' in number.value && AfterLastHyphen(number.value) != ""
    then Some(AfterLastHyphen(number.value)) else None
  }

  /** A row answers for its own text and number. */
  function ExactSays(): Says<AmendmentRow, (string, Option<string>), Hit> {
    (r: AmendmentRow, k: (string, Option<string>)) => if (r.texte, r.number) == k then Some(r.hit) else None
  }

  /** Plain scan: the last row with that text and number. */
  function LastExact(rows: seq<AmendmentRow>, texte: string, number: Option<string>): Option<Hit> {
    LastAnswer(ExactSays(), rows, (texte, number))
  }

  function BareOf(texte: string, bare: string): AmendmentRow -> Option<Candidate> {
    (r: AmendmentRow) => if r.texte == texte && BareNumber(r.number) == Some(bare) then Some(Candidate(r.hit, r.day)) else None
  }

  /** Plain scan: every row of the text with that bare number, in order. */
  function AllBare(rows: seq<AmendmentRow>, texte: string, bare: string): seq<Candidate> { FilterMap(BareOf(texte, bare), rows) }

  function OnDay(day: int): Candidate -> Option<Hit> {
    (c: Candidate) => if c.day == Some(day) then Some(c.hit) else None
  }

  function SameDay(candidates: seq<Candidate>, day: int): seq<Hit> { FilterMap(OnDay(day), candidates) }

  /** What one text resolves a bare number to: the only candidate of that day, else the only candidate. */
  function BareResolved(candidates: seq<Candidate>, day: int): Option<Hit> {
    if |SameDay(candidates, day)| == 1 then Some(SameDay(candidates, day)[0])
    else if |candidates| == 1 then Some(candidates[0].hit)
    else None
  }

  /** What a text answers to a number, whole or bare. */
  function ExactIn(rows: seq<AmendmentRow>, number: string): string -> Option<Hit> { t => LastExact(rows, t, Some(number)) }

  function BareIn(rows: seq<AmendmentRow>, number: string, day: int): string -> Option<Hit> {
    t => BareResolved(AllBare(rows, t, number), day)
  }

  function FirstAnswer(answer: string -> Option<Hit>, textes: seq<string>): Option<Hit> {
    if textes == [] then None else if answer(textes[0]).Some? then answer(textes[0]) else FirstAnswer(answer, textes[1..])
  }

  /** The amendment of a scrutin, by plain scans: whole numbers on every text first, then bare ones. */
  function Find(rows: seq<AmendmentRow>, number: Option<string>, day: int, textes: seq<string>): Option<Hit> {
    if !Truthy(number) then None
    else
      var exact := FirstAnswer(ExactIn(rows, number.value), textes);
      if exact.Some? then exact else FirstAnswer(BareIn(rows, number.value, day), textes)
  }

  // ---------------------------------------------------------------- the indexes

  class Lookups {
    var amendments: map<(string, Option<string>), Hit>
    var byBare: map<(string, string), seq<Candidate>>

    constructor ()
      ensures Agrees([])
    {
      amendments, byBare := map[], map[];
    }

    /** The indexes answer like a scan of the rows they were built from. */
    ghost predicate Agrees(rows: seq<AmendmentRow>)
      reads this
    {
      && (forall t, n :: LastExact(rows, t, n) == Get(amendments, (t, n)))
      && (forall t, b :: AllBare(rows, t, b) == if (t, b) in byBare then byBare[(t, b)] else [])
    }

    method Load(rows: seq<AmendmentRow>)
      requires Agrees([])
      modifies this
      ensures Agrees(rows)
    {
      for i := 0 to |rows|
        invariant Agrees(rows[..i])
      {
        assert rows[..i + 1][..i] == rows[..i];
        var r := rows[i];
        amendments := amendments[(r.texte, r.number) := r.hit];
        var bare := BareNumber(r.number);
        if bare.Some? {
          var key := (r.texte, bare.value);
          if key !in byBare {
            byBare := byBare[key := []];
          }
          byBare := byBare[key := byBare[key] + [Candidate(r.hit, r.day)]];
        }
      }
      assert rows[..|rows|] == rows;
    }

    /** `textes` is the set of the reading's texts, in whatever order it is iterated. */
    method AmendmentFor(number: Option<string>, day: int, textes: seq<string>, ghost rows: seq<AmendmentRow>) returns (found: Option<Hit>)
      requires Agrees(rows)
      ensures found == Find(rows, number, day, textes)
    {
      if !Truthy(number) {
        return None;
      }
      ghost var exact, bare := ExactIn(rows, number.value), BareIn(rows, number.value, day);
      for i := 0 to |textes|
        invariant FirstAnswer(exact, textes) == FirstAnswer(exact, textes[i..])
      {
        assert exact(textes[i]) == Get(amendments, (textes[i], number));
        if (textes[i], number) in amendments {
          return Some(amendments[(textes[i], number)]);
        }
      }
      for i := 0 to |textes|
        invariant FirstAnswer(bare, textes) == FirstAnswer(bare, textes[i..])
      {
        var candidates := if (textes[i], number.value) in byBare then byBare[(textes[i], number.value)] else [];
        assert candidates == AllBare(rows, textes[i], number.value);
        found := BareResolved(candidates, day);
        if found.Some? {
          return;
        }
      }
      return None;
    }
  }

  // ---------------------------------------------------------------- what is found

  lemma {:induction false} FirstAnswerIs(answer: string -> Option<Hit>, textes: seq<string>)
    ensures var r := FirstAnswer(answer, textes);
            && (r.None? <==> forall t :: t in textes ==> answer(t).None?)
            && (r.Some? ==> exists t :: t in textes && answer(t) == r)
  {
    if textes == [] {
    } else {
      FirstAnswerIs(answer, textes[1..]);
      assert textes[0] in textes && forall t :: t in textes <==> t == textes[0] || t in textes[1..];
    }
  }

  /**
   Against the plain scan: an exact match on any text wins over every bare one; a bare
   number resolves only where one candidate, or one candidate of that day, remains.
   */
  lemma FindScans(rows: seq<AmendmentRow>, number: string, day: int, textes: seq<string>)
    requires number != ""
    ensures var r := Find(rows, Some(number), day, textes);
            var exact := exists t :: t in textes && LastExact(rows, t, Some(number)).Some?;
            && (exact ==> exists t :: t in textes && LastExact(rows, t, Some(number)) == r && r.Some?)
            && (!exact && r.Some? ==> exists t :: t in textes && BareResolved(AllBare(rows, t, number), day) == r)
            && (r.None? <==> !exact && forall t :: t in textes ==> BareResolved(AllBare(rows, t, number), day).None?)
  {
    var exact, bare := ExactIn(rows, number), BareIn(rows, number, day);
    FirstAnswerIs(exact, textes);
    FirstAnswerIs(bare, textes);
    assert forall t :: exact(t) == LastExact(rows, t, Some(number)) && bare(t) == BareResolved(AllBare(rows, t, number), day);
    var r := Find(rows, Some(number), day, textes);
    if FirstAnswer(exact, textes).Some? {
      var t :| t in textes && exact(t) == r;
      assert LastExact(rows, t, Some(number)) == r;
    } else if r.Some? {
      var t :| t in textes && bare(t) == r;
      assert BareResolved(AllBare(rows, t, number), day) == r;
    }
  }

  ghost predicate RowAnswers(r: AmendmentRow, texte: string, number: Option<string>, hit: Hit) {
    r.texte == texte && r.number == number && r.hit == hit
  }

  lemma LastExactIsARow(rows: seq<AmendmentRow>, texte: string, number: Option<string>)
    ensures LastExact(rows, texte, number).Some? <==> exists r :: r in rows && r.texte == texte && r.number == number
    ensures LastExact(rows, texte, number).Some? ==> exists r :: r in rows && RowAnswers(r, texte, number, LastExact(rows, texte, number).value)
  {
    var k := (texte, number);
    SilentRows(ExactSays(), rows, k);
    if LastExact(rows, texte, number).Some? {
      LastIsTop(ExactSays(), Unordered(), rows, k);
      var r :| IsTop(ExactSays(), Unordered(), rows, k, r) && ExactSays()(r, k) == LastExact(rows, texte, number);
      assert r in rows && RowAnswers(r, texte, number, LastExact(rows, texte, number).value);
    }
  }

  /** Candidate `k` is the only one decided that day. */
  ghost predicate OnlyThatDay(candidates: seq<Candidate>, day: int, k: int) {
    && 0 <= k < |candidates| && candidates[k].day == Some(day)
    && forall j :: 0 <= j < |candidates| && j != k ==> candidates[j].day != Some(day)
  }

  lemma {:induction false} NoneThatDay(candidates: seq<Candidate>, day: int)
    requires forall j :: 0 <= j < |candidates| ==> candidates[j].day != Some(day)
    ensures SameDay(candidates, day) == []
  {
    if candidates == [] {
    } else {
      NoneThatDay(candidates[..|candidates| - 1], day);
    }
  }

  lemma {:induction false} OneThatDay(candidates: seq<Candidate>, day: int, k: nat)
    requires OnlyThatDay(candidates, day, k)
    ensures SameDay(candidates, day) == [candidates[k].hit]
    decreases |candidates|
  {
    var init := candidates[..|candidates| - 1];
    if k < |init| {
      assert OnlyThatDay(init, day, k);
      OneThatDay(init, day, k);
    } else {
      NoneThatDay(init, day);
    }
  }

  lemma {:induction false} SameDayIsOne(candidates: seq<Candidate>, day: int)
    requires |SameDay(candidates, day)| == 1
    ensures exists k :: OnlyThatDay(candidates, day, k)
  {
    var init, n := candidates[..|candidates| - 1], |candidates| - 1;
    if candidates[n].day == Some(day) {
      forall j | 0 <= j < n ensures candidates[j].day != Some(day) {
        FilterMapMembers(OnDay(day), init, init[j].hit);
        assert init[j] in init;
      }
      assert OnlyThatDay(candidates, day, n);
    } else {
      SameDayIsOne(init, day);
      var k :| OnlyThatDay(init, day, k);
      assert OnlyThatDay(candidates, day, k);
    }
  }

  /** Of several candidates, the one decided on the day of the scrutin, if it is the only such one; else the only candidate there is. */
  lemma BareResolvedIs(candidates: seq<Candidate>, day: int)
    ensures forall k :: OnlyThatDay(candidates, day, k) ==> BareResolved(candidates, day) == Some(candidates[k].hit)
    ensures (forall k :: !OnlyThatDay(candidates, day, k)) ==>
              BareResolved(candidates, day) == if |candidates| == 1 then Some(candidates[0].hit) else None
  {
    forall k | OnlyThatDay(candidates, day, k) ensures BareResolved(candidates, day) == Some(candidates[k].hit) { OneThatDay(candidates, day, k); }
    if |SameDay(candidates, day)| == 1 { SameDayIsOne(candidates, day); }
  }

  /** The candidates of a text are its amendments with that number after the last hyphen, with their days, in order. */
  lemma {:induction false} CandidatesAre(rows: seq<AmendmentRow>, texte: string, bare: string, i: nat)
    requires i < |rows|
    ensures var before, all := AllBare(rows[..i], texte, bare), AllBare(rows, texte, bare);
            && |before| <= |all| && all[..|before|] == before
            && (rows[i].texte == texte && BareNumber(rows[i].number) == Some(bare) ==>
                  |before| < |all| && all[|before|] == Candidate(rows[i].hit, rows[i].day))
    decreases |rows|
  {
    var n := |rows| - 1;
    if i < n {
      assert rows[..n][..i] == rows[..i] && rows[..n][i] == rows[i];
      CandidatesAre(rows[..n], texte, bare, i);
    }
  }

  lemma BareResolvedIsARow(rows: seq<AmendmentRow>, texte: string, bare: string, day: int)
    requires BareResolved(AllBare(rows, texte, bare), day).Some?
    ensures exists r :: r in rows && r.texte == texte && BareNumber(r.number) == Some(bare)
                        && r.hit == BareResolved(AllBare(rows, texte, bare), day).value
  {
    var candidates := AllBare(rows, texte, bare);
    var hit := BareResolved(candidates, day).value;
    var c: Candidate;
    if |SameDay(candidates, day)| == 1 {
      FilterMapMembers(OnDay(day), candidates, hit);
      c :| c in candidates && OnDay(day)(c) == Some(hit);
    } else {
      c := candidates[0];
    }
    FilterMapMembers(BareOf(texte, bare), rows, c);
    var r :| r in rows && BareOf(texte, bare)(r) == Some(c);
  }

  /** Whatever is returned is an amendment on one of the texts, with the number quoted, whole or after its last hyphen. */
  lemma FindIsOnTheReading(rows: seq<AmendmentRow>, number: Option<string>, day: int, textes: seq<string>)
    requires Find(rows, number, day, textes).Some?
    ensures exists r :: r in rows && r.texte in textes && r.hit == Find(rows, number, day, textes).value
                        && (r.number == number || BareNumber(r.number) == number)
  {
    var found := Find(rows, number, day, textes);
    FindScans(rows, number.value, day, textes);
    if t :| t in textes && LastExact(rows, t, number) == found {
      LastExactIsARow(rows, t, number);
      var r :| r in rows && RowAnswers(r, t, number, found.value);
    } else {
      var t :| t in textes && BareResolved(AllBare(rows, t, number.value), day) == found;
      BareResolvedIsARow(rows, t, number.value, day);
    }
  }

  // ---------------------------------------------------------------- when the order does not matter

  /** An amendment on one of the texts with exactly that number. */
  predicate IsExact(r: AmendmentRow, number: string, textes: seq<string>) { r.texte in textes && r.number == Some(number) }

  ghost predicate ExactAlike(rows: seq<AmendmentRow>, number: string, textes: seq<string>) {
    forall r, s :: r in rows && s in rows && IsExact(r, number, textes) && IsExact(s, number, textes) ==> r.hit == s.hit
  }

  ghost predicate BareAlike(rows: seq<AmendmentRow>, number: string, day: int, textes: seq<string>) {
    forall t, u :: t in textes && u in textes && BareIn(rows, number, day)(t).Some? && BareIn(rows, number, day)(u).Some?
      ==> BareIn(rows, number, day)(t) == BareIn(rows, number, day)(u)
  }

  /** Whole numbers decide if any text has the number so; all its amendments must be one, or all texts answer the same. */
  ghost predicate Settled(rows: seq<AmendmentRow>, number: string, day: int, textes: seq<string>) {
    if exists r :: r in rows && IsExact(r, number, textes) then ExactAlike(rows, number, textes) else BareAlike(rows, number, day, textes)
  }

  lemma SameSingleton<T>(a: seq<T>, b: seq<T>)
    requires Permuted(a, b)
    ensures |a| == |b| && (|a| == 1 ==> a[0] == b[0])
  {
    assert |multiset(a)| == |a| && |multiset(b)| == |b|;
    PermutedMembers(a, b);
    if |a| == 1 { assert a[0] in a; }
  }

  /** A text with one number twice is decided by the last row; its bare numbers are counted, so no row order matters. */
  lemma BareIgnoresRowOrder(rows: seq<AmendmentRow>, other: seq<AmendmentRow>, number: string, day: int, t: string)
    requires Permuted(rows, other)
    ensures BareIn(rows, number, day)(t) == BareIn(other, number, day)(t)
  {
    var a, b := AllBare(rows, t, number), AllBare(other, t, number);
    FilterMapPermutes(BareOf(t, number), rows, other);
    FilterMapPermutes(OnDay(day), a, b);
    SameSingleton(a, b);
    SameSingleton(SameDay(a, day), SameDay(b, day));
  }

  lemma SameLevel(rows: seq<AmendmentRow>, number: string, textes: seq<string>)
    ensures (exists r :: r in rows && IsExact(r, number, textes)) <==> exists t :: t in textes && LastExact(rows, t, Some(number)).Some?
  {
    if r :| r in rows && IsExact(r, number, textes) { LastExactIsARow(rows, r.texte, Some(number)); }
    if t :| t in textes && LastExact(rows, t, Some(number)).Some? {
      LastExactIsARow(rows, t, Some(number));
      var r :| r in rows && r.texte == t && r.number == Some(number);
      assert IsExact(r, number, textes);
    }
  }

  lemma ExactLevelFinds(rows: seq<AmendmentRow>, number: string, day: int, textes: seq<string>)
    requires number != "" && exists r :: r in rows && IsExact(r, number, textes)
    ensures exists r :: r in rows && IsExact(r, number, textes) && Find(rows, Some(number), day, textes) == Some(r.hit)
  {
    SameLevel(rows, number, textes);
    FindScans(rows, number, day, textes);
    var t :| t in textes && LastExact(rows, t, Some(number)) == Find(rows, Some(number), day, textes)
             && Find(rows, Some(number), day, textes).Some?;
    LastExactIsARow(rows, t, Some(number));
    var r :| r in rows && RowAnswers(r, t, Some(number), Find(rows, Some(number), day, textes).value);
    assert IsExact(r, number, textes);
  }

  lemma BareLevelFinds(rows: seq<AmendmentRow>, number: string, day: int, textes: seq<string>)
    requires number != "" && !exists r :: r in rows && IsExact(r, number, textes)
    ensures var r, bare := Find(rows, Some(number), day, textes), BareIn(rows, number, day);
            && (r.None? <==> forall t :: t in textes ==> bare(t).None?)
            && (r.Some? ==> exists t :: t in textes && bare(t) == r)
  {
    SameLevel(rows, number, textes);
    FirstAnswerIs(ExactIn(rows, number), textes);
    FirstAnswerIs(BareIn(rows, number, day), textes);
    forall t | t in textes ensures ExactIn(rows, number)(t).None? { assert LastExact(rows, t, Some(number)).None?; }
  }

  lemma BareLevelAgrees(rows: seq<AmendmentRow>, number: string, day: int, textes: seq<string>, rs: seq<AmendmentRow>, ts: seq<string>)
    requires number != "" && Permuted(rows, rs) && Permuted(textes, ts) && BareAlike(rows, number, day, textes)
    requires !exists r :: r in rows && IsExact(r, number, textes)
    ensures Find(rs, Some(number), day, ts) == Find(rows, Some(number), day, textes)
  {
    PermutedMembers(rows, rs);
    PermutedMembers(textes, ts);
    BareLevelFinds(rows, number, day, textes);
    BareLevelFinds(rs, number, day, ts);
    forall t ensures BareIn(rows, number, day)(t) == BareIn(rs, number, day)(t) { BareIgnoresRowOrder(rows, rs, number, day, t); }
  }

  lemma SettledIsEnough(rows: seq<AmendmentRow>, number: string, day: int, textes: seq<string>, rs: seq<AmendmentRow>, ts: seq<string>)
    requires number != "" && Settled(rows, number, day, textes) && Permuted(rows, rs) && Permuted(textes, ts)
    ensures Find(rs, Some(number), day, ts) == Find(rows, Some(number), day, textes)
  {
    if exists r :: r in rows && IsExact(r, number, textes) {
      PermutedMembers(rows, rs);
      PermutedMembers(textes, ts);
      ExactLevelFinds(rows, number, day, textes);
      ExactLevelFinds(rs, number, day, ts);
    } else {
      BareLevelAgrees(rows, number, day, textes, rs, ts);
    }
  }

  lemma MovedFirst<T>(s: seq<T>, x: T) returns (rest: seq<T>)
    requires x in s
    ensures Permuted(s, [x] + rest) && Permuted(s, rest + [x])
  {
    var i :| 0 <= i < |s| && s[i] == x;
    rest := s[..i] + s[i + 1..];
    assert s == s[..i] + [x] + s[i + 1..];
  }

  /** An exact row that comes last, on the text that comes first, is what is found. */
  lemma ExactMayDecide(rows: seq<AmendmentRow>, number: string, day: int, textes: seq<string>, r: AmendmentRow)
    returns (rs: seq<AmendmentRow>, ts: seq<string>)
    requires number != "" && r in rows && IsExact(r, number, textes)
    ensures Permuted(rows, rs) && Permuted(textes, ts) && Find(rs, Some(number), day, ts) == Some(r.hit)
  {
    var before := MovedFirst(rows, r);
    var others := MovedFirst(textes, r.texte);
    rs, ts := before + [r], [r.texte] + others;
    assert ExactIn(rs, number)(ts[0]) == Some(r.hit);
  }

  /** Without exact rows, a text that resolves the bare number decides when it comes first. */
  lemma BareMayDecide(rows: seq<AmendmentRow>, number: string, day: int, textes: seq<string>, t: string) returns (ts: seq<string>)
    requires number != "" && t in textes && BareIn(rows, number, day)(t).Some?
    requires !exists r :: r in rows && IsExact(r, number, textes)
    ensures Permuted(textes, ts) && Find(rows, Some(number), day, ts) == BareIn(rows, number, day)(t)
  {
    var others := MovedFirst(textes, t);
    ts := [t] + others;
    PermutedMembers(textes, ts);
    SameLevel(rows, number, ts);
    FirstAnswerIs(ExactIn(rows, number), ts);
    assert ts[0] == t;
    forall u | u in ts ensures ExactIn(rows, number)(u).None? { assert LastExact(rows, u, Some(number)).None?; }
  }

  /**
   The query that loads the amendments has no ORDER BY and the texts of a reading are a set:
   every order of both gives the same amendment exactly when the texts settle the number.
   */
  lemma AnyOrderAgreesIff(rows: seq<AmendmentRow>, number: string, day: int, textes: seq<string>)
    requires number != ""
    ensures (forall rs, ts :: Permuted(rows, rs) && Permuted(textes, ts) ==>
               Find(rs, Some(number), day, ts) == Find(rows, Some(number), day, textes))
       <==> Settled(rows, number, day, textes)
  {
    if Settled(rows, number, day, textes) {
      forall rs, ts | Permuted(rows, rs) && Permuted(textes, ts)
        ensures Find(rs, Some(number), day, ts) == Find(rows, Some(number), day, textes)
      {
        SettledIsEnough(rows, number, day, textes, rs, ts);
      }
    } else if exists r :: r in rows && IsExact(r, number, textes) {
      var r, s :| r in rows && s in rows && IsExact(r, number, textes) && IsExact(s, number, textes) && r.hit != s.hit;
      var rs1, ts1 := ExactMayDecide(rows, number, day, textes, r);
      var rs2, ts2 := ExactMayDecide(rows, number, day, textes, s);
    } else {
      var t, u :| t in textes && u in textes && BareIn(rows, number, day)(t).Some? && BareIn(rows, number, day)(u).Some?
                  && BareIn(rows, number, day)(t) != BareIn(rows, number, day)(u);
      var ts1 := BareMayDecide(rows, number, day, textes, t);
      var ts2 := BareMayDecide(rows, number, day, textes, u);
      assert Permuted(rows, rows);
    }
  }

  const TWICE_12 := [AmendmentRow("T", Some("12"), None, Hit(1, "A")), AmendmentRow("T", Some("12"), None, Hit(2, "B"))]

  lemma TheLastRowIsFound(x: AmendmentRow, y: AmendmentRow, day: int)
    requires y.texte == "T" && y.number == Some("12")
    ensures Find([x, y], Some("12"), day, ["T"]) == Some(y.hit)
  {
    assert [x, y][|[x, y]| - 1] == y;
    assert ExactIn([x, y], "12")("T") == Some(y.hit);
  }

  /** Two séance amendments of one text with one number: the listing of the table decides. */
  lemma OneNumberTwiceIsUnsettled(day: int)
    ensures !Settled(TWICE_12, "12", day, ["T"])
    ensures var swapped := [TWICE_12[1], TWICE_12[0]];
            Permuted(TWICE_12, swapped) && Find(TWICE_12, Some("12"), day, ["T"]) != Find(swapped, Some("12"), day, ["T"])
  {
    var x, y := TWICE_12[0], TWICE_12[1];
    assert IsExact(x, "12", ["T"]) && IsExact(y, "12", ["T"]) && x in TWICE_12 && y in TWICE_12;
    TheLastRowIsFound(x, y, day);
    TheLastRowIsFound(y, x, day);
  }

  // ---------------------------------------------------------------- titles

  const MIN_TITLE_WORDS: nat := 4

  /** str.split("-"): never empty. */
  function Words(slug: string): (r: seq<string>)
    ensures r != []
  {
    if slug == [] then [""]
    else
      var rest := Words(slug[1..]);
      if slug[0] == '-' then [""] + rest else [[slug[0]] + rest[0]] + rest[1..]
  }

  predicate OccursAt(needle: string, hay: string, i: nat) {
    i + |needle| <= |hay| && hay[i..i + |needle|] == needle
  }

  predicate Occurs(needle: string, hay: string) {
    exists i :: 0 <= i <= |hay| && OccursAt(needle, hay, i)
  }

  predicate Opening(words: seq<string>, k: nat, title: string)
    requires k <= |words|
  {
    Occurs(Join("-", words[..k]), title)
  }

  lemma {:induction false} WordsJoinBack(slug: string)
    ensures Join("-", Words(slug)) == slug
  {
    if slug == [] {
    } else {
      var rest := Words(slug[1..]);
      WordsJoinBack(slug[1..]);
      if slug[0] == '-' {
        assert ([""] + rest)[1..] == rest;
      } else {
        var ws := [[slug[0]] + rest[0]] + rest[1..];
        if |rest| > 1 { assert ws[1..] == rest[1..]; }
      }
    }
  }

  /** No word holds a dash, so the words are what split("-") gives. */
  lemma {:induction false} WordsHaveNoDash(slug: string)
    ensures forall w :: w in Words(slug) ==> '-' !in w
  {
    if slug == [] {
    } else {
      var rest := Words(slug[1..]);
      WordsHaveNoDash(slug[1..]);
      assert rest[0] in rest && forall w :: w in rest[1..] ==> w in rest;
    }
  }

  /** `needle in hay`: something before it, it, something after it. */
  lemma OccursIff(needle: string, hay: string)
    ensures Occurs(needle, hay) <==> exists before, after :: hay == before + needle + after
  {
    if Occurs(needle, hay) {
      var i :| 0 <= i <= |hay| && OccursAt(needle, hay, i);
      assert hay == hay[..i] + needle + hay[i + |needle|..];
    }
    if before, after :| hay == before + needle + after {
      assert OccursAt(needle, hay, |before|);
    }
  }

  lemma {:induction false} JoinedIsPrefix(words: seq<string>, k: nat)
    requires 0 < k <= |words|
    ensures Join("-", words[..k]) <= Join("-", words)
  {
    if k == |words| {
      assert words[..k] == words;
    } else if k == 1 {
      assert Join("-", words[..1]) == words[0];
    } else {
      JoinedIsPrefix(words[1..], k - 1);
      assert words[..k][1..] == words[1..][..k - 1];
      assert words[0] + "-" + Join("-", words[1..][..k - 1]) <= words[0] + "-" + Join("-", words[1..]);
    }
  }

  /** If a longer opening occurs, so does a shorter one. */
  lemma OpeningsAreDownwardClosed(words: seq<string>, j: nat, k: nat, title: string)
    requires 0 < j <= k <= |words| && Opening(words, k, title)
    ensures Opening(words, j, title)
  {
    var long, short := Join("-", words[..k]), Join("-", words[..j]);
    JoinedIsPrefix(words[..k], j);
    assert words[..k][..j] == words[..j];
    var i :| 0 <= i <= |title| && OccursAt(long, title, i);
    assert title[i..i + |short|] == long[..|short|] == short;
    assert OccursAt(short, title, i);
  }

  /** The largest k whose first k words occur in the title; 0 when not even the first does. */
  ghost predicate IsBest(words: seq<string>, title: string, best: nat) {
    && best <= |words|
    && (best > 0 ==> Opening(words, best, title))
    && forall k :: best < k <= |words| ==> !Opening(words, k, title)
  }

  function LongestFrom(words: seq<string>, title: string, k: nat): nat
    requires k <= |words|
    decreases |words| - k
  {
    if k < |words| && Opening(words, k + 1, title) then LongestFrom(words, title, k + 1) else k
  }

  function Score(lawSlug: string, title: string): nat { LongestFrom(Words(lawSlug), title, 0) }

  lemma {:induction false} LongestIsBest(words: seq<string>, title: string, k: nat)
    requires k <= |words| && (k > 0 ==> Opening(words, k, title))
    ensures IsBest(words, title, LongestFrom(words, title, k))
    decreases |words| - k
  {
    if k < |words| && Opening(words, k + 1, title) {
      LongestIsBest(words, title, k + 1);
    } else {
      forall j | k < j <= |words| ensures !Opening(words, j, title) {
        if Opening(words, j, title) { OpeningsAreDownwardClosed(words, k + 1, j, title); }
      }
    }
  }

  /** The score of a law is the largest number of leading words of its title that the scrutin's title quotes. */
  lemma ScoreIsBest(lawSlug: string, title: string)
    ensures IsBest(Words(lawSlug), title, Score(lawSlug, title))
  {
    LongestIsBest(Words(lawSlug), title, 0);
  }

  /** Stops at the first miss. */
  method MatchingWords(lawSlug: string, title: string) returns (best: nat)
    ensures IsBest(Words(lawSlug), title, best)
    ensures best == Score(lawSlug, title)
  {
    var words := Words(lawSlug);
    best := 0;
    var k := 1;
    while k <= |words|
      invariant 1 <= k <= |words| + 1 && best == k - 1
      invariant best > 0 ==> Opening(words, best, title)
      invariant Score(lawSlug, title) == LongestFrom(words, title, k - 1)
    {
      if !Opening(words, k, title) {
        forall j | k <= j <= |words| ensures !Opening(words, j, title) {
          if Opening(words, j, title) { OpeningsAreDownwardClosed(words, k, j, title); }
        }
        return;
      }
      best := k;
      k := k + 1;
    }
  }

  // ---------------------------------------------------------------- the law of a scrutin

  datatype Scored = Scored(score: nat, dossier: string)

  /** sorted(..., reverse=True) on (score, dossier). */
  function HighestFirst(): (Scored, Scored) -> bool {
    (x: Scored, y: Scored) => x.score > y.score || (x.score == y.score && TextLe(y.dossier, x.dossier))
  }

  function ScoreAll(dossiers: seq<string>, titles: map<string, string>, title: string): seq<Scored> {
    seq(|dossiers|, i requires 0 <= i < |dossiers| =>
      Scored(Score(if dossiers[i] in titles then titles[dossiers[i]] else "", title), dossiers[i]))
  }

  /** `candidates` is the sitting's dossiers that have a public law, in whatever order the set gives. */
  function LawAmong(candidates: seq<string>, titles: map<string, string>, title: string): Option<string> {
    if |candidates| == 1 then Some(candidates[0])
    else
      var scored := Sort(ScoreAll(candidates, titles, title), HighestFirst());
      if scored == [] || scored[0].score < MIN_TITLE_WORDS then None
      else if |scored| > 1 && scored[1].score == scored[0].score then None
      else Some(scored[0].dossier)
  }

  function LawFor(own: Option<string>, candidates: seq<string>, laws: map<string, int>, titles: map<string, string>, title: string): Option<string> {
    if own.Some? && own.value in laws then own else LawAmong(candidates, titles, title)
  }

  function TitleScore(d: string, titles: map<string, string>, title: string): nat {
    Score(if d in titles then titles[d] else "", title)
  }

  /** At least four words quoted, and more than any other candidate. */
  ghost predicate Wins(d: string, candidates: seq<string>, titles: map<string, string>, title: string) {
    && d in candidates
    && TitleScore(d, titles, title) >= MIN_TITLE_WORDS
    && forall e :: e in candidates && e != d ==> TitleScore(e, titles, title) < TitleScore(d, titles, title)
  }

  lemma HighestFirstIsTotal()
    ensures Total(HighestFirst()) && Transitive(HighestFirst())
  {
    forall x, y ensures HighestFirst()(x, y) || HighestFirst()(y, x) { TextLeTotal(x.dossier, y.dossier); }
    forall x, y, z | HighestFirst()(x, y) && HighestFirst()(y, z) ensures HighestFirst()(x, z) {
      if TextLe(z.dossier, y.dossier) && TextLe(y.dossier, x.dossier) { TextLeTransitive(z.dossier, y.dossier, x.dossier); }
    }
  }

  lemma OnlyOnce(candidates: seq<string>, titles: map<string, string>, title: string, x: Scored)
    requires Distinct(candidates)
    ensures multiset(ScoreAll(candidates, titles, title))[x] <= 1
  {
    var all := ScoreAll(candidates, titles, title);
    if x in all {
      var k :| 0 <= k < |all| && all[k] == x;
      assert all == all[..k] + [all[k]] + all[k + 1..];
      assert x !in all[..k] && x !in all[k + 1..];
    }
  }

  /** The ranking lists each candidate once, best score first. */
  lemma RankingIs(candidates: seq<string>, titles: map<string, string>, title: string)
    requires Distinct(candidates)
    ensures var scored := Sort(ScoreAll(candidates, titles, title), HighestFirst());
            && |scored| == |candidates|
            && (forall i :: 0 <= i < |scored| ==>
                  scored[i].dossier in candidates && scored[i].score == TitleScore(scored[i].dossier, titles, title))
            && (forall d :: d in candidates ==> exists i :: 0 <= i < |scored| && scored[i].dossier == d)
            && (forall i, j :: 0 <= i < j < |scored| ==> scored[i].score >= scored[j].score && scored[i].dossier != scored[j].dossier)
  {
    var all := ScoreAll(candidates, titles, title);
    var scored := Sort(all, HighestFirst());
    HighestFirstIsTotal();
    SortKeeps(all, HighestFirst());
    SortSorts(all, HighestFirst());
    forall i | 0 <= i < |scored|
      ensures scored[i].dossier in candidates && scored[i].score == TitleScore(scored[i].dossier, titles, title)
    {
      SortMembers(all, HighestFirst(), scored[i]);
    }
    forall d | d in candidates ensures exists i :: 0 <= i < |scored| && scored[i].dossier == d {
      var k :| 0 <= k < |candidates| && candidates[k] == d;
      SortMembers(all, HighestFirst(), all[k]);
    }
    forall i, j | 0 <= i < j < |scored| ensures scored[i].score >= scored[j].score && scored[i].dossier != scored[j].dossier {
      assert HighestFirst()(scored[i], scored[j]);
      if scored[i] == scored[j] {
        RepeatCounts(scored, i, j);
        OnlyOnce(candidates, titles, title, scored[i]);
      }
    }
  }

  lemma WinnerIsReturned(candidates: seq<string>, titles: map<string, string>, title: string, d: string)
    requires Distinct(candidates) && |candidates| != 1 && Wins(d, candidates, titles, title)
    ensures LawAmong(candidates, titles, title) == Some(d)
  {
    RankingIs(candidates, titles, title);
    var scored := Sort(ScoreAll(candidates, titles, title), HighestFirst());
    var i :| 0 <= i < |scored| && scored[i].dossier == d;
    assert scored[0].dossier in candidates && scored[0].score >= scored[i].score;
    assert scored[0].dossier == d;
    if |scored| > 1 { assert scored[1].dossier in candidates && scored[1].dossier != d; }
  }

  lemma ReturnedWins(candidates: seq<string>, titles: map<string, string>, title: string, d: string)
    requires Distinct(candidates) && |candidates| != 1 && LawAmong(candidates, titles, title) == Some(d)
    ensures Wins(d, candidates, titles, title)
  {
    RankingIs(candidates, titles, title);
    var scored := Sort(ScoreAll(candidates, titles, title), HighestFirst());
    assert scored[0].dossier == d;
    forall e | e in candidates && e != d ensures TitleScore(e, titles, title) < TitleScore(d, titles, title) {
      var i :| 0 <= i < |scored| && scored[i].dossier == e;
      assert i > 1 ==> scored[1].score >= scored[i].score;
    }
  }

  /** Among two or more candidates the law returned is the one that wins, if one does, whatever the set order. */
  lemma LawAmongIsTheWinner(candidates: seq<string>, titles: map<string, string>, title: string, d: string)
    requires Distinct(candidates) && |candidates| != 1
    ensures LawAmong(candidates, titles, title) == Some(d) <==> Wins(d, candidates, titles, title)
  {
    if Wins(d, candidates, titles, title) { WinnerIsReturned(candidates, titles, title, d); }
    if LawAmong(candidates, titles, title) == Some(d) { ReturnedWins(candidates, titles, title, d); }
  }

  /** The candidates of a sitting are a set: their order does not matter. */
  lemma LawIgnoresOrder(own: Option<string>, candidates: seq<string>, other: seq<string>, laws: map<string, int>, titles: map<string, string>, title: string)
    requires Distinct(candidates) && Permuted(candidates, other)
    ensures LawFor(own, candidates, laws, titles, title) == LawFor(own, other, laws, titles, title)
  {
    PermutedDistinct(candidates, other);
    PermutedMembers(candidates, other);
    SameSingleton(candidates, other);
    if |candidates| != 1 {
      forall d ensures LawAmong(candidates, titles, title) == Some(d) <==> LawAmong(other, titles, title) == Some(d) {
        LawAmongIsTheWinner(candidates, titles, title, d);
        LawAmongIsTheWinner(other, titles, title, d);
        assert Wins(d, candidates, titles, title) <==> Wins(d, other, titles, title);
      }
      if LawAmong(candidates, titles, title).Some? { assert LawAmong(other, titles, title) == Some(LawAmong(candidates, titles, title).value); }
      if LawAmong(other, titles, title).Some? { assert LawAmong(candidates, titles, title) == Some(LawAmong(other, titles, title).value); }
    }
  }

  /** Exactly which law a scrutin gets: its own, else the only candidate, else the candidate that wins. */
  lemma LawForIff(own: Option<string>, candidates: seq<string>, laws: map<string, int>, titles: map<string, string>, title: string, d: string)
    requires Distinct(candidates)
    ensures LawFor(own, candidates, laws, titles, title) == Some(d) <==>
              || (own == Some(d) && d in laws)
              || ((own.None? || own.value !in laws) && d in candidates
                  && ((forall e :: e in candidates ==> e == d) || Wins(d, candidates, titles, title)))
  {
    if own.None? || own.value !in laws {
      if |candidates| == 1 {
        assert candidates[0] in candidates;
      } else {
        LawAmongIsTheWinner(candidates, titles, title, d);
        assert |candidates| >= 2 ==> candidates[0] in candidates && candidates[1] in candidates && candidates[0] != candidates[1];
      }
    }
  }

  /** Any dossier returned has a public law. */
  lemma LawForIsPublic(own: Option<string>, candidates: seq<string>, laws: map<string, int>, titles: map<string, string>, title: string)
    requires Distinct(candidates) && forall d :: d in candidates ==> d in laws
    requires LawFor(own, candidates, laws, titles, title).Some?
    ensures LawFor(own, candidates, laws, titles, title).value in laws
  {
    if !(own.Some? && own.value in laws) && |candidates| != 1 {
      LawAmongIsTheWinner(candidates, titles, title, LawFor(own, candidates, laws, titles, title).value);
    }
  }

  lemma {:induction false} AfterLastHyphenIs(s: string)
    ensures var r := AfterLastHyphen(s);
            && '-' !in r && |r| <= |s| && s[|s| - |r|..] == r
            && ('-' in s ==> |r| < |s| && s[|s| - |r| - 1] == '-')
  {
    if s == [] || s[|s| - 1] == '-' {
    } else {
      var init := s[..|s| - 1];
      AfterLastHyphenIs(init);
      assert s == init + [s[|s| - 1]];
    }
  }

  lemma {:induction false} AfterLastHyphenOf(before: string, after: string)
    requires '-' !in after
    ensures AfterLastHyphen(before + "-" + after) == after
  {
    var s := before + "-" + after;
    if after == "" {
      assert s[|s| - 1] == '-';
    } else {
      assert s[..|s| - 1] == before + "-" + after[..|after| - 1] && s[|s| - 1] == after[|after| - 1] && s[|s| - 1] in after;
      AfterLastHyphenOf(before, after[..|after| - 1]);
    }
  }

  /** A number has a bare one exactly when something follows its last hyphen, and that is it. */
  lemma BareNumberIs(before: string, after: string)
    requires '-' !in after
    ensures BareNumber(Some(before + "-" + after)) == if after == "" then None else Some(after)
    ensures BareNumber(Some(after)) == None && BareNumber(None) == None
  {
    AfterLastHyphenOf(before, after);
    assert (before + "-" + after)[|before|] == '-';
  }

  /** The bare number is what follows the last hyphen: the rest plus a hyphen plus it is the number, and it has none. */
  lemma BareNumberIsAfterTheLastHyphen(number: string)
    requires BareNumber(Some(number)).Some?
    ensures var bare := BareNumber(Some(number)).value;
            && '-' !in bare && bare != "" && |bare| < |number|
            && number[|number| - |bare|..] == bare && number[|number| - |bare| - 1] == '-'
  {
    AfterLastHyphenIs(number);
  }
}

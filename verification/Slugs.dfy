/** URL slugs: their normal form, and their life in a table where they are written once. */
module Slugs {
  import opened Prelude

  /** ASCII folding (NFKD, then dropping what is not ASCII), left uninterpreted. */
  type Fold = string -> string

  predicate IsAscii(s: string) { forall i :: 0 <= i < |s| ==> s[i] < 128 as char }

  ghost predicate IsAsciiFold(fold: Fold) {
    forall s :: IsAscii(fold(s)) && (IsAscii(s) ==> fold(s) == s)
  }

  predicate IsAlnum(c: char) { 'a' <= c <= 'z' || '0' <= c <= '9' }

  /** The code points of [a-z0-9]. */
  lemma IsAlnumIs(c: char)
    ensures IsAlnum(c) <==> 97 <= c as int <= 122 || 48 <= c as int <= 57
  {
  }

  function Lower(s: string): string {
    if s == [] then [] else [LowerAscii(s[0])] + Lower(s[1..])
  }

  /** Each maximal run of characters outside [a-z0-9] becomes one dash. */
  function Dashed(s: string): string {
    if s == [] then []
    else if IsAlnum(s[0]) then [s[0]] + Dashed(s[1..])
    else if |s| > 1 && !IsAlnum(s[1]) then Dashed(s[1..])
    else "-" + Dashed(s[1..])
  }

  predicate IsDash(c: char) { c == '-' }

  function LStrip(s: string): string { if s != [] && s[0] == '-' then LStrip(s[1..]) else s }

  function Slugify(fold: Fold, text: string, max: nat): string {
    var slug := RStrip(IsDash, LStrip(Dashed(Lower(fold(text)))));
    RStrip(IsDash, slug[..Min(max, |slug|)])
  }

  predicate NoDoubleDash(s: string) {
    forall i :: 0 <= i < |s| - 1 ==> !(s[i] == '-' && s[i + 1] == '-')
  }

  predicate SlugChars(s: string) { forall i :: 0 <= i < |s| ==> IsAlnum(s[i]) || s[i] == '-' }

  predicate Normal(s: string, max: nat) {
    && SlugChars(s) && NoDoubleDash(s) && |s| <= max
    && (s != [] ==> s[0] != '-' && s[|s| - 1] != '-')
  }

  lemma {:induction false} DashedShape(s: string)
    ensures SlugChars(Dashed(s)) && NoDoubleDash(Dashed(s))
    ensures s != [] && IsAlnum(s[0]) ==> Dashed(s) != [] && IsAlnum(Dashed(s)[0])
  {
    if s == [] {
    } else {
      DashedShape(s[1..]);
    }
  }

  /** Stripping only shortens from one end, and leaves that end without a dash. */
  lemma {:induction false} LStripShape(s: string)
    requires SlugChars(s) && NoDoubleDash(s)
    ensures SlugChars(LStrip(s)) && NoDoubleDash(LStrip(s)) && |LStrip(s)| <= |s|
    ensures LStrip(s) != [] ==> LStrip(s)[0] != '-'
  {
    if s == [] || s[0] != '-' {
    } else {
      LStripShape(s[1..]);
    }
  }

  lemma {:induction false} RStripShape(s: string)
    requires SlugChars(s) && NoDoubleDash(s) && (s != [] ==> s[0] != '-')
    ensures Normal(RStrip(IsDash, s), |s|)
  {
    if s == [] || s[|s| - 1] != '-' {
    } else {
      RStripShape(s[..|s| - 1]);
    }
  }

  /** Every slug is in normal form, whatever the text and the length allowed. */
  lemma SlugIsNormal(fold: Fold, text: string, max: nat)
    ensures Normal(Slugify(fold, text, max), max)
  {
    var d := Dashed(Lower(fold(text)));
    DashedShape(Lower(fold(text)));
    LStripShape(d);
    RStripShape(LStrip(d));
    var slug := RStrip(IsDash, LStrip(d));
    RStripShape(slug[..Min(max, |slug|)]);
  }

  lemma {:induction false} LowerKeeps(s: string)
    requires SlugChars(s)
    ensures Lower(s) == s
  {
    if s == [] {
    } else {
      LowerKeeps(s[1..]);
    }
  }

  lemma {:induction false} DashedKeeps(s: string)
    requires SlugChars(s) && NoDoubleDash(s) && (s != [] ==> s[|s| - 1] != '-')
    ensures Dashed(s) == s
  {
    if s == [] {
    } else {
      DashedKeeps(s[1..]);
      assert |s| > 1 && s[0] == '-' ==> IsAlnum(s[1]);
    }
  }

  /** The texts that slugify leaves alone are exactly the normal forms. */
  lemma FixedIffNormal(fold: Fold, s: string, max: nat)
    requires IsAsciiFold(fold)
    ensures Slugify(fold, s, max) == s <==> Normal(s, max)
  {
    SlugIsNormal(fold, s, max);
    if Normal(s, max) {
      assert IsAscii(s);
      LowerKeeps(s);
      DashedKeeps(s);
      assert s[..|s|] == s;
    }
  }

  // ---------------------------------------------------------------- unique, written once

  /** external_id -> slug */
  type SlugTable = map<string, string>

  predicate TakenByOther(t: SlugTable, slug: string, ext: string) {
    exists other :: other in t && other != ext && t[other] == slug
  }

  function Suffixed(fold: Fold, slug: string, ext: string): string { slug + "-" + Slugify(fold, ext, 200) }

  /** The uid is appended when another row already owns the slug; nobody checks the result. */
  function UniqueSlug(fold: Fold, t: SlugTable, slug: string, ext: string): string {
    if TakenByOther(t, slug, ext) then Suffixed(fold, slug, ext) else slug
  }

  /** A projected row asks for a slug; it is only used if the row is new. */
  datatype Request = Request(ext: string, slug: string)

  function Asked(fold: Fold, t: SlugTable, r: Request): SlugTable {
    if r.ext in t then t else t[r.ext := UniqueSlug(fold, t, r.slug, r.ext)]
  }

  function AllAsked(fold: Fold, t: SlugTable, rs: seq<Request>): SlugTable {
    if rs == [] then t else Asked(fold, AllAsked(fold, t, rs[..|rs| - 1]), rs[|rs| - 1])
  }

  ghost predicate PairwiseDistinct(t: SlugTable) {
    forall a, b :: a in t && b in t && a != b ==> t[a] != t[b]
  }

  /** The request collides: its row is new, the slug is taken, and so is the suffixed slug. */
  predicate Collides(fold: Fold, t: SlugTable, r: Request) {
    && r.ext !in t
    && TakenByOther(t, r.slug, r.ext)
    && TakenByOther(t, Suffixed(fold, r.slug, r.ext), r.ext)
  }

  /** Written once: whatever is projected later, a row keeps its slug. */
  lemma {:induction false} SlugNeverChanges(fold: Fold, t: SlugTable, rs: seq<Request>, ext: string)
    requires ext in t
    ensures ext in AllAsked(fold, t, rs) && AllAsked(fold, t, rs)[ext] == t[ext]
  {
    if rs == [] {
    } else {
      SlugNeverChanges(fold, t, rs[..|rs| - 1], ext);
    }
  }

  lemma StepKeepsDistinctIff(fold: Fold, t: SlugTable, r: Request)
    requires PairwiseDistinct(t)
    ensures PairwiseDistinct(Asked(fold, t, r)) <==> !Collides(fold, t, r)
  {
    var t' := Asked(fold, t, r);
    if Collides(fold, t, r) {
      var other :| other in t && other != r.ext && t[other] == Suffixed(fold, r.slug, r.ext);
      assert t'[other] == t'[r.ext];
    } else if r.ext !in t {
      assert !TakenByOther(t, t'[r.ext], r.ext);
    }
  }

  ghost predicate CollisionAt(fold: Fold, t: SlugTable, rs: seq<Request>, k: nat)
    requires k < |rs|
  {
    Collides(fold, AllAsked(fold, t, rs[..k]), rs[k])
  }

  ghost predicate NeverCollides(fold: Fold, t: SlugTable, rs: seq<Request>) {
    forall k :: 0 <= k < |rs| ==> !CollisionAt(fold, t, rs, k)
  }

  lemma NeverCollidesStep(fold: Fold, t: SlugTable, rs: seq<Request>)
    requires rs != []
    ensures var init := rs[..|rs| - 1];
            NeverCollides(fold, t, rs) <==> NeverCollides(fold, t, init) && !CollisionAt(fold, t, rs, |rs| - 1)
  {
    var init := rs[..|rs| - 1];
    forall k | 0 <= k < |init| ensures CollisionAt(fold, t, init, k) <==> CollisionAt(fold, t, rs, k) {
      assert init[..k] == rs[..k];
    }
  }

  lemma StillEqual(fold: Fold, t: SlugTable, r: Request)
    requires !PairwiseDistinct(t)
    ensures !PairwiseDistinct(Asked(fold, t, r))
  {
    var a, b :| a in t && b in t && a != b && t[a] == t[b];
    assert Asked(fold, t, r)[a] == Asked(fold, t, r)[b];
  }

  /** Over any sequence of runs the slugs stay distinct exactly when no request ever collides. */
  lemma {:induction false} DistinctIffNeverCollides(fold: Fold, t: SlugTable, rs: seq<Request>)
    requires PairwiseDistinct(t)
    ensures PairwiseDistinct(AllAsked(fold, t, rs)) <==> NeverCollides(fold, t, rs)
  {
    if rs == [] {
    } else {
      var init, last := rs[..|rs| - 1], rs[|rs| - 1];
      DistinctIffNeverCollides(fold, t, init);
      NeverCollidesStep(fold, t, rs);
      if PairwiseDistinct(AllAsked(fold, t, init)) {
        StepKeepsDistinctIff(fold, AllAsked(fold, t, init), last);
      } else {
        StillEqual(fold, AllAsked(fold, t, init), last);
      }
    }
  }

  /** The suffix can be taken as well: "a" asked by "b" becomes "a-b", which another row may own. */
  lemma SuffixedSlugMayCollide(fold: Fold)
    requires IsAsciiFold(fold)
    ensures var t: SlugTable := map["x" := "a", "y" := "a-b"];
            PairwiseDistinct(t) && !PairwiseDistinct(Asked(fold, t, Request("b", "a")))
  {
    var t: SlugTable := map["x" := "a", "y" := "a-b"];
    FixedIffNormal(fold, "b", 200);
    assert Suffixed(fold, "a", "b") == "a-b";
    assert "x" in t && t["x"] == "a" && "y" in t && t["y"] == "a-b";
    StepKeepsDistinctIff(fold, t, Request("b", "a"));
  }

  lemma {:induction false} AllAskedAppend(fold: Fold, t: SlugTable, a: seq<Request>, b: seq<Request>)
    ensures AllAsked(fold, t, a + b) == AllAsked(fold, AllAsked(fold, t, a), b)
  {
    if b == [] {
      assert a + b == a;
    } else {
      assert (a + b)[..|a + b| - 1] == a + b[..|b| - 1];
      AllAskedAppend(fold, t, a, b[..|b| - 1]);
    }
  }

  lemma {:induction false} NewRowsComeFromRequests(fold: Fold, t: SlugTable, rs: seq<Request>, ext: string)
    requires ext !in t && forall r :: r in rs ==> r.ext != ext
    ensures ext !in AllAsked(fold, t, rs)
  {
    if rs == [] {
    } else {
      assert rs[|rs| - 1] in rs && forall r :: r in rs[..|rs| - 1] ==> r in rs;
      NewRowsComeFromRequests(fold, t, rs[..|rs| - 1], ext);
    }
  }

  /** Whatever a new row's request gets, the slug it asked for has an owner afterwards. */
  lemma RequestedSlugIsOwned(fold: Fold, t: SlugTable, r: Request) returns (owner: string)
    requires r.ext !in t
    ensures var after := Asked(fold, t, r);
            owner in after && after[owner] == r.slug && (owner == r.ext || owner in t)
  {
    if TakenByOther(t, r.slug, r.ext) {
      owner :| owner in t && owner != r.ext && t[owner] == r.slug;
    } else {
      owner := r.ext;
    }
  }

  /** The same seen from a later point of the run: the owner is still there. */
  lemma SlugStaysOwned(fold: Fold, t: SlugTable, rs: seq<Request>, i: nat, y: string) returns (owner: string)
    requires i < |rs| && rs[i].ext !in t && y !in t
    requires forall k, l :: 0 <= k < l < |rs| ==> rs[k].ext != rs[l].ext
    requires forall k :: 0 <= k < |rs| ==> rs[k].ext != y
    ensures var after := AllAsked(fold, t, rs);
            owner in after && after[owner] == rs[i].slug && owner != y
  {
    var before, upto, rest := AllAsked(fold, t, rs[..i]), rs[..i + 1], rs[i + 1..];
    NewRowsComeFromRequests(fold, t, rs[..i], rs[i].ext);
    NewRowsComeFromRequests(fold, t, rs[..i], y);
    owner := RequestedSlugIsOwned(fold, before, rs[i]);
    assert upto[..i] == rs[..i];
    assert AllAsked(fold, t, upto) == Asked(fold, before, rs[i]);
    assert rs == upto + rest;
    AllAskedAppend(fold, t, upto, rest);
    SlugNeverChanges(fold, AllAsked(fold, t, upto), rest, owner);
  }

  /** Of two new rows asking for one slug in a run, the later one gets its uid appended. */
  lemma LaterRequestIsSuffixed(fold: Fold, t: SlugTable, rs: seq<Request>, i: nat, j: nat)
    requires i < j < |rs| && rs[i].slug == rs[j].slug
    requires rs[i].ext !in t && rs[j].ext !in t
    requires forall k, l :: 0 <= k < l < |rs| ==> rs[k].ext != rs[l].ext
    ensures rs[j].ext in AllAsked(fold, t, rs)
    ensures AllAsked(fold, t, rs)[rs[j].ext] == Suffixed(fold, rs[j].slug, rs[j].ext)
  {
    var y, mid, upto, rest := rs[j].ext, AllAsked(fold, t, rs[..j]), rs[..j + 1], rs[j + 1..];
    NewRowsComeFromRequests(fold, t, rs[..j], y);
    var owner := SlugStaysOwned(fold, t, rs[..j], i, y);
    assert TakenByOther(mid, rs[j].slug, y);
    assert upto[..j] == rs[..j];
    assert AllAsked(fold, t, upto) == Asked(fold, mid, rs[j]);
    assert rs == upto + rest;
    AllAskedAppend(fold, t, upto, rest);
    SlugNeverChanges(fold, AllAsked(fold, t, upto), rest, y);
  }
}

/**
 The articles of a law text, read in one pass over the paragraphs of its web
 page, against a declarative segmentation of the same paragraphs.
 */
module LawTextParser {
  import opened Prelude

  /**
   Class of a <p>: assnat9ArticleNum, assnatMentionsousarticle, assnat4TitreNum,
   assnat4TitreIntit, assnat5ChapitreNum, assnat5ChapitreIntit, or any other.
   */
  datatype Css = ArticleNum | Mention | TitleNum | TitleWording | ChapterNum | ChapterWording | Other(name: string)

  /** One <p>: its class and its cleaned (stripped) text. */
  datatype Para = Para(css: Css, text: string)

  /** Keys of the dictionary of headings in force. */
  datatype Level = TitleLevel | ChapterLevel

  const DASH := " – "

  predicate IsHeading(css: Css) {
    css.TitleNum? || css.TitleWording? || css.ChapterNum? || css.ChapterWording?
  }

  datatype Article = Article(
    articleRef: string, isNew: bool, position: nat,
    section: Option<string>, content: Option<string>, mention: Option<string>)

  /** The entity refuses an article whose reference is blank; the whole parse raises. */
  datatype Error = BlankArticleRef

  // ---------------------------------------------------------------- strings

  predicate IsSpace(c: char) {
    c in " \t\n\r\U{0B}\U{0C}\U{1C}\U{1D}\U{1E}\U{1F}\U{85}\U{A0}\U{2028}\U{2029}\U{202F}\U{205F}\U{3000}\U{1680}"
    || '\U{2000}' <= c <= '\U{200A}'
  }

  /** The code points that str.isspace accepts. */
  lemma IsSpaceIs(c: char)
    ensures var point := c as int;
            IsSpace(c) <==>
              || 9 <= point <= 13 || 28 <= point <= 32 || point == 133 || point == 160 || point == 5760
              || 8192 <= point <= 8202 || point == 8232 || point == 8233 || point == 8239 || point == 8287 || point == 12288
  {
  }

  /** `word` ends `s`, letter case aside; `word` is lower case. */
  predicate EndsWithAnyCase(s: string, word: string) {
    |word| <= |s| && forall k :: 0 <= k < |word| ==> LowerAscii(s[|s| - |word| + k]) == word[k]
  }

  predicate IsNew(text: string) {
    EndsWithAnyCase(text, "(nouveau)") || EndsWithAnyCase(text, "(nouvelle)")
  }

  /** "Article 2 bis (nouveau)" is cited as "Article 2 bis". */
  function ArticleRef(text: string): string {
    if EndsWithAnyCase(text, "(nouveau)") then RStrip(IsSpace, text[..|text| - |"(nouveau)"|])
    else if EndsWithAnyCase(text, "(nouvelle)") then RStrip(IsSpace, text[..|text| - |"(nouvelle)"|])
    else text
  }

  predicate IsParenthesis(c: char) { c == '(' || c == ')' }

  function StripParentheses(s: string): string {
    if s == [] then s
    else if IsParenthesis(s[0]) then StripParentheses(s[1..])
    else if IsParenthesis(s[|s| - 1]) then StripParentheses(s[..|s| - 1])
    else s
  }

  function OrNone(s: string): Option<string> { if s == "" then None else Some(s) }

  function SectionOf(title: Option<string>, chapter: Option<string>): Option<string> {
    if Truthy(title) && Truthy(chapter) then Some(title.value + DASH + chapter.value)
    else if Truthy(title) then title
    else if Truthy(chapter) then chapter
    else None
  }

  // ---------------------------------------------------------------- declarative segmentation

  /** The title in force after `ps`: the last number, then every wording since. */
  function TitleAfter(ps: seq<Para>): Option<string> {
    if ps == [] then None
    else
      var p, before := ps[|ps| - 1], TitleAfter(ps[..|ps| - 1]);
      if p.css.TitleNum? then Some(p.text)
      else if p.css.TitleWording? && p.text != "" && before.Some? then Some(before.value + DASH + p.text)
      else before
  }

  /** The chapter in force after `ps`; a new title forgets it. */
  function ChapterAfter(ps: seq<Para>): Option<string> {
    if ps == [] then None
    else
      var p, before := ps[|ps| - 1], ChapterAfter(ps[..|ps| - 1]);
      if p.css.ChapterNum? then Some(p.text)
      else if p.css.TitleNum? then None
      else if p.css.ChapterWording? && p.text != "" && before.Some? then Some(before.value + DASH + p.text)
      else before
  }

  predicate IsAlinea(p: Para) {
    p.text != "" && !p.css.ArticleNum? && !p.css.Mention? && !IsHeading(p.css)
  }

  /** Texts of the alinéas of `ps`, in order. */
  function Alineas(ps: seq<Para>): seq<string> {
    if ps == [] then []
    else if IsAlinea(ps[|ps| - 1]) then Alineas(ps[..|ps| - 1]) + [ps[|ps| - 1].text]
    else Alineas(ps[..|ps| - 1])
  }

  function LastMention(ps: seq<Para>): Option<string> {
    if ps == [] then None
    else if ps[|ps| - 1].css.Mention? then OrNone(StripParentheses(ps[|ps| - 1].text))
    else LastMention(ps[..|ps| - 1])
  }

  predicate OpensArticle(p: Para) { p.css.ArticleNum? && p.text != "" }

  /** Positions of the non-empty article headings. */
  function Openings(ps: seq<Para>): (r: seq<nat>)
    ensures forall k :: 0 <= k < |r| ==> r[k] < |ps| && OpensArticle(ps[r[k]])
  {
    if ps == [] then []
    else if OpensArticle(ps[|ps| - 1]) then Openings(ps[..|ps| - 1]) + [|ps| - 1]
    else Openings(ps[..|ps| - 1])
  }

  /** First article heading, empty or not, from position `from` on. */
  function NextHeading(ps: seq<Para>, from: nat): (r: nat)
    requires from <= |ps|
    ensures from <= r <= |ps|
    ensures forall j :: from <= j < r ==> !ps[j].css.ArticleNum?
    ensures r < |ps| ==> ps[r].css.ArticleNum?
    decreases |ps| - from
  {
    if from == |ps| || ps[from].css.ArticleNum? then from else NextHeading(ps, from + 1)
  }

  /** The paragraphs that belong to the article opened at `start`. */
  function Span(ps: seq<Para>, start: nat): seq<Para>
    requires start < |ps|
  {
    ps[start + 1..NextHeading(ps, start + 1)]
  }

  /** What the heading at `start` says of its article. */
  function Header(ps: seq<Para>, start: nat, position: nat): Article
    requires start < |ps|
  {
    Article(
      ArticleRef(ps[start].text), IsNew(ps[start].text), position,
      SectionOf(TitleAfter(ps[..start]), ChapterAfter(ps[..start])), None, None)
  }

  function ArticleAt(ps: seq<Para>, start: nat, position: nat): Article
    requires start < |ps|
  {
    var span := Span(ps, start);
    Header(ps, start, position).(content := OrNone(Join("\n", Alineas(span))), mention := LastMention(span))
  }

  function Segment(ps: seq<Para>): seq<Article> {
    var starts := Openings(ps);
    seq(|starts|, k requires 0 <= k < |starts| => ArticleAt(ps, starts[k], k + 1))
  }

  ghost predicate HasBlankRef(ps: seq<Para>) {
    exists i :: 0 <= i < |ps| && OpensArticle(ps[i]) && ArticleRef(ps[i].text) == ""
  }

  // ---------------------------------------------------------------- the one-pass parser

  function Get(section: map<Level, string>, level: Level): Option<string> {
    if level in section then Some(section[level]) else None
  }

  lemma NextHeadingIs(ps: seq<Para>, from: nat, to: nat)
    requires from <= to <= |ps|
    requires forall j :: from <= j < to ==> !ps[j].css.ArticleNum?
    requires to < |ps| ==> ps[to].css.ArticleNum?
    ensures NextHeading(ps, from) == to
  {
    var r := NextHeading(ps, from);
    assert !(r < to) && !(to < r);
  }

  /** What the loop knows of the article being read, opened at `start`, after `i` paragraphs. */
  ghost predicate Reading(ps: seq<Para>, i: nat, start: nat, current: Article, alineas: seq<string>, position: nat)
    requires i <= |ps|
  {
    && start < i
    && (forall j :: start < j < i ==> !ps[j].css.ArticleNum?)
    && current == Header(ps, start, position).(mention := LastMention(ps[start + 1..i]))
    && alineas == Alineas(ps[start + 1..i])
  }

  lemma ReadOne(ps: seq<Para>, i: nat, start: nat)
    requires start < i < |ps|
    ensures var before, after := ps[start + 1..i], ps[start + 1..i + 1];
            && Alineas(after) == (if IsAlinea(ps[i]) then Alineas(before) + [ps[i].text] else Alineas(before))
            && LastMention(after) == if ps[i].css.Mention? then OrNone(StripParentheses(ps[i].text)) else LastMention(before)
  {
    var after := ps[start + 1..i + 1];
    assert after[..|after| - 1] == ps[start + 1..i] && after[|after| - 1] == ps[i];
  }

  lemma Closed(ps: seq<Para>, i: nat, start: nat, current: Article, alineas: seq<string>, position: nat)
    requires i <= |ps| && Reading(ps, i, start, current, alineas, position)
    requires i < |ps| ==> ps[i].css.ArticleNum?
    ensures current.(content := OrNone(Join("\n", alineas))) == ArticleAt(ps, start, position)
  {
    NextHeadingIs(ps, start + 1, i);
  }

  /** What the dictionary of headings becomes at a heading paragraph. */
  function Headed(section: map<Level, string>, p: Para): map<Level, string> {
    if p.css.TitleNum? then section[TitleLevel := p.text] - {ChapterLevel}
    else if p.css.ChapterNum? then section[ChapterLevel := p.text]
    else if p.css.TitleWording? && p.text != "" && TitleLevel in section then
      section[TitleLevel := section[TitleLevel] + DASH + p.text]
    else if p.css.ChapterWording? && p.text != "" && ChapterLevel in section then
      section[ChapterLevel := section[ChapterLevel] + DASH + p.text]
    else section
  }

  ghost predicate InForce(section: map<Level, string>, ps: seq<Para>) {
    Get(section, TitleLevel) == TitleAfter(ps) && Get(section, ChapterLevel) == ChapterAfter(ps)
  }

  lemma OpeningsStep(ps: seq<Para>, i: nat)
    requires i < |ps|
    ensures Openings(ps[..i + 1]) == if OpensArticle(ps[i]) then Openings(ps[..i]) + [i] else Openings(ps[..i])
  {
    assert ps[..i + 1][..i] == ps[..i];
  }

  lemma HeadingsStep(ps: seq<Para>, i: nat, section: map<Level, string>)
    requires i < |ps| && InForce(section, ps[..i])
    ensures InForce(Headed(section, ps[i]), ps[..i + 1])
  {
    assert ps[..i + 1][..i] == ps[..i];
  }

  /** The articles read so far are the first ones of the segmentation. */
  ghost predicate Done(ps: seq<Para>, starts: seq<nat>, articles: seq<Article>) {
    && |articles| <= |starts|
    && forall k :: 0 <= k < |articles| ==> starts[k] < |ps| && articles[k] == ArticleAt(ps, starts[k], k + 1)
  }

  /** The state of the loop after `i` paragraphs. */
  ghost predicate Progress(ps: seq<Para>, i: nat, articles: seq<Article>, current: Option<Article>,
                           alineas: seq<string>, start: nat)
    requires i <= |ps|
  {
    var starts := Openings(ps[..i]);
    && Done(ps, starts, articles)
    && |starts| == |articles| + (if current.Some? then 1 else 0)
    && (current.Some? ==>
          starts[|articles|] == start && Reading(ps, i, start, current.value, alineas, |articles| + 1))
  }

  /** The headings in force, and no article refused so far. */
  ghost predicate Fine(ps: seq<Para>, i: nat, section: map<Level, string>)
    requires i <= |ps|
  {
    && InForce(section, ps[..i])
    && forall j :: 0 <= j < i && OpensArticle(ps[j]) ==> ArticleRef(ps[j].text) != ""
  }

  lemma FineOn(ps: seq<Para>, i: nat, section: map<Level, string>)
    requires i < |ps| && Fine(ps, i, section)
    ensures !(OpensArticle(ps[i]) && ArticleRef(ps[i].text) == "") ==> Fine(ps, i + 1, Headed(section, ps[i]))
    ensures !IsHeading(ps[i].css) ==> Headed(section, ps[i]) == section
  {
    HeadingsStep(ps, i, section);
  }

  /** `close()`: the article being read is finished by the heading at `i`, or by the end. */
  lemma Close(ps: seq<Para>, i: nat, articles: seq<Article>, current: Article,
              alineas: seq<string>, start: nat)
    requires i <= |ps| && Progress(ps, i, articles, Some(current), alineas, start)
    requires i < |ps| ==> ps[i].css.ArticleNum?
    ensures Progress(ps, i, articles + [current.(content := OrNone(Join("\n", alineas)))], None, alineas, start)
  {
    Closed(ps, i, start, current, alineas, |articles| + 1);
  }

  /** The article that a non-empty heading opens. */
  function Opened(text: string, section: map<Level, string>, position: nat): Article {
    Article(ArticleRef(text), IsNew(text), position,
            SectionOf(Get(section, TitleLevel), Get(section, ChapterLevel)), None, None)
  }

  lemma Open(ps: seq<Para>, i: nat, articles: seq<Article>, section: map<Level, string>, alineas: seq<string>, start: nat)
    requires i < |ps| && ps[i].css.ArticleNum? && Fine(ps, i, section)
    requires Progress(ps, i, articles, None, alineas, start)
    ensures ps[i].text == "" ==> Progress(ps, i + 1, articles, None, alineas, start)
    ensures ps[i].text != "" && ArticleRef(ps[i].text) != "" ==>
      Progress(ps, i + 1, articles,
        Some(Opened(ps[i].text, section, |articles| + 1)), [], i)
  {
    OpeningsStep(ps, i);
    assert ps[i + 1..i + 1] == [];
  }

  lemma DoneOn(ps: seq<Para>, i: nat, articles: seq<Article>)
    requires i < |ps| && !ps[i].css.ArticleNum?
    requires Done(ps, Openings(ps[..i]), articles)
    ensures Openings(ps[..i + 1]) == Openings(ps[..i]) && Done(ps, Openings(ps[..i + 1]), articles)
  {
    OpeningsStep(ps, i);
  }

  function ReadMention(current: Article, p: Para): Article {
    if p.css.Mention? then current.(mention := OrNone(StripParentheses(p.text))) else current
  }

  function ReadAlinea(alineas: seq<string>, p: Para): seq<string> {
    if IsAlinea(p) then alineas + [p.text] else alineas
  }

  lemma ReadingOn(ps: seq<Para>, i: nat, start: nat, current: Article, alineas: seq<string>, position: nat)
    requires i < |ps| && !ps[i].css.ArticleNum? && Reading(ps, i, start, current, alineas, position)
    ensures Reading(ps, i + 1, start, ReadMention(current, ps[i]), ReadAlinea(alineas, ps[i]), position)
  {
    ReadOne(ps, i, start);
  }

  /** A paragraph that is no article heading: a heading, a mention, an alinéa, or nothing of interest. */
  lemma ReadOn(ps: seq<Para>, i: nat, articles: seq<Article>, current: Option<Article>, alineas: seq<string>, start: nat)
    requires i < |ps| && !ps[i].css.ArticleNum?
    requires Progress(ps, i, articles, current, alineas, start)
    ensures current.None? ==> Progress(ps, i + 1, articles, current, alineas, start)
    ensures current.Some? ==>
      Progress(ps, i + 1, articles, Some(ReadMention(current.value, ps[i])), ReadAlinea(alineas, ps[i]), start)
  {
    DoneOn(ps, i, articles);
    if current.Some? { ReadingOn(ps, i, start, current.value, alineas, |articles| + 1); }
  }

  lemma Start(ps: seq<Para>)
    ensures Fine(ps, 0, map[]) && Progress(ps, 0, [], None, [], 0)
  {
  }

  lemma BlankRefAt(ps: seq<Para>, i: nat)
    requires i < |ps| && ps[i].css.ArticleNum? && ps[i].text != "" && ArticleRef(ps[i].text) == ""
    ensures HasBlankRef(ps)
  {
    assert OpensArticle(ps[i]);
  }

  lemma Finished(ps: seq<Para>, articles: seq<Article>, section: map<Level, string>, alineas: seq<string>, start: nat)
    requires Fine(ps, |ps|, section) && Progress(ps, |ps|, articles, None, alineas, start)
    ensures articles == Segment(ps) && !HasBlankRef(ps)
  {
    assert ps[..|ps|] == ps;
  }

  method Parse(ps: seq<Para>) returns (r: Result<seq<Article>, Error>)
    ensures r.Err? <==> HasBlankRef(ps)
    ensures r.Ok? ==> r.value == Segment(ps)
  {
    var articles: seq<Article> := [];
    var section: map<Level, string> := map[];
    var current: Option<Article> := None;
    var alineas: seq<string> := [];
    ghost var start := 0;
    Start(ps);

    for i := 0 to |ps|
      // Compared to true so that the solver keeps each predicate whole.
      invariant true == Fine(ps, i, section)
      invariant true == Progress(ps, i, articles, current, alineas, start)
    {
      FineOn(ps, i, section);
      var css, text := ps[i].css, ps[i].text;
      if css.ArticleNum? {
        if current.Some? {
          Close(ps, i, articles, current.value, alineas, start);
          articles := articles + [current.value.(content := OrNone(Join("\n", alineas)))];
        }
        Open(ps, i, articles, section, alineas, start);
        if text == "" {
          current := None;
        } else {
          var article := Opened(text, section, |articles| + 1);
          if article.articleRef == "" {
            BlankRefAt(ps, i);
            return Err(BlankArticleRef);
          }
          current := Some(article);
          alineas := [];
          start := i;
        }
      } else {
        ReadOn(ps, i, articles, current, alineas, start);
        if IsHeading(css) {
          section := Headed(section, ps[i]);
        } else if current.Some? && css.Mention? {
          current := Some(current.value.(mention := OrNone(StripParentheses(text))));
        } else if current.Some? && text != "" {
          alineas := alineas + [text];
        }
      }
    }
    if current.Some? {
      Close(ps, |ps|, articles, current.value, alineas, start);
      articles := articles + [current.value.(content := OrNone(Join("\n", alineas)))];
    }
    Finished(ps, articles, section, alineas, start);
    return Ok(articles);
  }

  // ---------------------------------------------------------------- what the segmentation guarantees

  lemma {:induction false} OpeningsAscend(ps: seq<Para>)
    ensures forall j, k :: 0 <= j < k < |Openings(ps)| ==> Openings(ps)[j] < Openings(ps)[k]
    ensures forall i :: 0 <= i < |ps| && OpensArticle(ps[i]) ==> i in Openings(ps)
  {
    if ps == [] {
    } else {
      var before := ps[..|ps| - 1];
      OpeningsAscend(before);
      forall i | 0 <= i < |ps| && OpensArticle(ps[i]) ensures i in Openings(ps) {
        if i < |ps| - 1 { assert before[i] == ps[i]; }
      }
    }
  }

  ghost predicate AreOpenings(starts: seq<nat>, ps: seq<Para>) {
    && (forall j, k :: 0 <= j < k < |starts| ==> starts[j] < starts[k])
    && |starts| == |set i | 0 <= i < |ps| && OpensArticle(ps[i])|
  }

  lemma {:induction false} AscendingCount(s: seq<int>)
    requires forall j, k :: 0 <= j < k < |s| ==> s[j] < s[k]
    ensures |set x | x in s| == |s|
  {
    if s == [] {
    } else {
      var init, last := s[..|s| - 1], s[|s| - 1];
      AscendingCount(init);
      assert (set x | x in s) == (set x | x in init) + {last};
    }
  }

  lemma OpeningsAreAllOfThem(ps: seq<Para>)
    ensures AreOpenings(Openings(ps), ps)
  {
    OpeningsAscend(ps);
    var starts := Openings(ps);
    AscendingCount(starts);
    assert (set i | 0 <= i < |ps| && OpensArticle(ps[i])) == set x | x in starts;
  }

  /** One article per non-empty article heading, in document order, numbered 1..n and cited as its heading says. */
  lemma OneArticlePerHeading(ps: seq<Para>)
    ensures AreOpenings(Openings(ps), ps) && |Segment(ps)| == |Openings(ps)|
    ensures forall k :: 0 <= k < |Segment(ps)| ==>
              var heading := ps[Openings(ps)[k]].text;
              && Segment(ps)[k].position == k + 1
              && Segment(ps)[k].articleRef == ArticleRef(heading) && Segment(ps)[k].isNew == IsNew(heading)
  {
    OpeningsAreAllOfThem(ps);
  }

  /** The article that owns the paragraph at `i`: its heading is the last article heading before `i`. */
  ghost predicate Owns(ps: seq<Para>, start: nat, i: nat) {
    start < i < |ps| && OpensArticle(ps[start]) && forall j :: start < j <= i ==> !ps[j].css.ArticleNum?
  }

  /**
   Nothing is read twice and nothing is moved: a paragraph lies in the span of an
   opened article exactly when that article's heading is the last one before it,
   so in at most one span, and in none when that last heading is empty or missing.
   */
  lemma SpansPartition(ps: seq<Para>, start: nat, i: nat)
    requires start < |ps| && OpensArticle(ps[start]) && i < |ps|
    ensures (start + 1 <= i < NextHeading(ps, start + 1)) <==> Owns(ps, start, i)
    ensures forall other: nat :: Owns(ps, start, i) && Owns(ps, other, i) ==> start == other
  {
    var next := NextHeading(ps, start + 1);
    assert !(start < next <= i && Owns(ps, start, i));
    forall other: nat | Owns(ps, start, i) && Owns(ps, other, i) ensures start == other {
      assert ps[other].css.ArticleNum? && ps[start].css.ArticleNum?;
    }
  }

  /** The alinéas kept from a span are its non-empty paragraphs that are neither heading nor mention. */
  lemma {:induction false} AlineasAreTheOrdinaryParagraphs(ps: seq<Para>, i: nat)
    requires i < |ps| && IsAlinea(ps[i])
    ensures |Alineas(ps[..i])| < |Alineas(ps)| && Alineas(ps)[|Alineas(ps[..i])|] == ps[i].text
    decreases |ps|
  {
    var before := ps[..|ps| - 1];
    if i < |ps| - 1 {
      assert before[..i] == ps[..i];
      AlineasAreTheOrdinaryParagraphs(before, i);
    }
  }

  /** Where the alinéas stand. */
  function AlineaPlaces(ps: seq<Para>): set<int> { set i | 0 <= i < |ps| && IsAlinea(ps[i]) }

  lemma PlacesStep(ps: seq<Para>)
    requires ps != []
    ensures var n := |ps| - 1;
            AlineaPlaces(ps) == AlineaPlaces(ps[..n]) + (if IsAlinea(ps[n]) then {n} else {}) && n !in AlineaPlaces(ps[..n])
  {
  }

  lemma {:induction false} AlineasCount(ps: seq<Para>)
    ensures |Alineas(ps)| == |AlineaPlaces(ps)|
  {
    if ps == [] {
    } else {
      AlineasCount(ps[..|ps| - 1]);
      PlacesStep(ps);
    }
  }

  lemma {:induction false} AlineasNonEmpty(ps: seq<Para>)
    ensures forall t :: t in Alineas(ps) ==> t != ""
  {
    if ps == [] {
    } else {
      AlineasNonEmpty(ps[..|ps| - 1]);
    }
  }

  /** An article has no content exactly when its span holds no alinéa. */
  lemma ContentIsNoneIffNoAlinea(ps: seq<Para>, k: nat)
    requires k < |Segment(ps)|
    ensures Segment(ps)[k].content.None? <==>
              forall p :: p in Span(ps, Openings(ps)[k]) ==> !IsAlinea(p)
  {
    var span := Span(ps, Openings(ps)[k]);
    AlineasCount(span);
    AlineasNonEmpty(span);
    if Alineas(span) == [] {
      forall p | p in span ensures !IsAlinea(p) {
        var i :| 0 <= i < |span| && span[i] == p;
        if IsAlinea(p) { AlineasAreTheOrdinaryParagraphs(span, i); }
      }
    } else {
      assert Join("\n", Alineas(span)) != "" by { assert Alineas(span)[0] in Alineas(span); }
      assert AlineaPlaces(span) != {};
      var i :| i in AlineaPlaces(span);
      assert span[i] in span;
    }
  }

  /** A lone "(nouveau)" heading is not dropped: it makes the whole text fail. */
  lemma LoneNewMarkerFails()
    ensures HasBlankRef([Para(ArticleNum, "(Nouveau)")])
  {
    var ps := [Para(ArticleNum, "(Nouveau)")];
    assert OpensArticle(ps[0]) && ArticleRef(ps[0].text) == "";
  }

  // ---------------------------------------------------------------- references and mentions

  ghost predicate AllSpaces(s: string) { forall k :: 0 <= k < |s| ==> IsSpace(s[k]) }

  lemma {:induction false} RStripDropsSpaces(base: string, spaces: string)
    requires AllSpaces(spaces) && base != "" && !IsSpace(base[|base| - 1])
    ensures RStrip(IsSpace, base + spaces) == base
  {
    if spaces == "" {
      assert base + spaces == base;
    } else {
      var init := spaces[..|spaces| - 1];
      assert (base + spaces)[..|base + spaces| - 1] == base + init;
      RStripDropsSpaces(base, init);
    }
  }

  lemma MarkerEndsTheText(before: string, marker: string, word: string)
    requires |marker| == |word| && EndsWithAnyCase(marker, word)
    ensures EndsWithAnyCase(before + marker, word) && (before + marker)[..|before + marker| - |word|] == before
  {
    var text := before + marker;
    forall k | 0 <= k < |word| ensures LowerAscii(text[|text| - |word| + k]) == word[k] {
      assert text[|text| - |word| + k] == marker[k];
    }
  }

  /** The two markers exclude each other: their last letters differ. */
  lemma OneMarkerAtMost(text: string)
    requires EndsWithAnyCase(text, "(nouvelle)")
    ensures !EndsWithAnyCase(text, "(nouveau)")
  {
    assert LowerAscii(text[|text| - 10 + 8]) == "(nouvelle)"[8];
    assert LowerAscii(text[|text| - 9 + 7]) != "(nouveau)"[7];
  }

  /** "Article 2 bis (nouveau)": the marker says the article is new and is no part of its reference. */
  lemma NewMarkerIsNotPartOfTheRef(base: string, spaces: string, marker: string)
    requires AllSpaces(spaces) && base != "" && !IsSpace(base[|base| - 1])
    requires (|marker| == 9 && EndsWithAnyCase(marker, "(nouveau)")) || (|marker| == 10 && EndsWithAnyCase(marker, "(nouvelle)"))
    ensures IsNew(base + spaces + marker) && ArticleRef(base + spaces + marker) == base
  {
    RStripDropsSpaces(base, spaces);
    if |marker| == 9 {
      MarkerEndsTheText(base + spaces, marker, "(nouveau)");
    } else {
      MarkerEndsTheText(base + spaces, marker, "(nouvelle)");
      OneMarkerAtMost(base + spaces + marker);
    }
  }

  lemma {:induction false} RStripShortens(s: string)
    ensures |RStrip(IsSpace, s)| <= |s|
  {
    if s == [] || !IsSpace(s[|s| - 1]) {
    } else {
      RStripShortens(s[..|s| - 1]);
    }
  }

  /** A heading without the marker is its own reference. */
  lemma OtherHeadingsAreTheirRef(text: string)
    ensures !IsNew(text) <==> ArticleRef(text) == text
  {
    if EndsWithAnyCase(text, "(nouveau)") { RStripShortens(text[..|text| - 9]); }
    if EndsWithAnyCase(text, "(nouvelle)") { RStripShortens(text[..|text| - 10]); }
  }

  /** The mention is the text between its parentheses. */
  lemma {:induction false} MentionIsTheTextInside(before: string, inside: string, after: string)
    requires forall k :: 0 <= k < |before| ==> before[k] in "()"
    requires forall k :: 0 <= k < |after| ==> after[k] in "()"
    requires inside != "" ==> inside[0] !in "()" && inside[|inside| - 1] !in "()"
    ensures StripParentheses(before + inside + after) == inside
    decreases |before| + |after|
  {
    var s := before + inside + after;
    if before != "" {
      assert s[1..] == before[1..] + inside + after;
      MentionIsTheTextInside(before[1..], inside, after);
    } else if after != "" {
      if inside == "" {
        assert s == after && s[1..] == "" + inside + after[1..];
        MentionIsTheTextInside("", inside, after[1..]);
      } else {
        assert s[0] == inside[0] && s[|s| - 1] == after[|after| - 1];
        assert s[..|s| - 1] == before + inside + after[..|after| - 1];
        MentionIsTheTextInside(before, inside, after[..|after| - 1]);
      }
    } else {
      assert s == inside;
    }
  }

  // ---------------------------------------------------------------- every part of an article, by positions

  /** The last position between `lo` and `hi`, both excluded, that satisfies `keep`; `lo` itself when there is none. */
  ghost predicate IsLast(keep: Para -> bool, ps: seq<Para>, lo: int, hi: int, at: int)
    requires -1 <= lo && hi <= |ps|
  {
    && lo <= at < hi && (at > lo ==> keep(ps[at]))
    && forall j :: at < j < hi ==> !keep(ps[j])
  }

  /** All positions between `lo` and `hi`, both excluded, that satisfy `keep`, in order. */
  ghost predicate AreAll(keep: Para -> bool, ps: seq<Para>, lo: int, hi: int, places: seq<int>)
    requires -1 <= lo && hi <= |ps|
  {
    && (forall j, k :: 0 <= j < k < |places| ==> places[j] < places[k])
    && forall i :: i in places <==> lo < i < hi && keep(ps[i])
  }

  function TextsAt(ps: seq<Para>, places: seq<int>): seq<string>
    requires forall i :: i in places ==> 0 <= i < |ps|
  {
    seq(|places|, k requires 0 <= k < |places| => assert places[k] in places; ps[places[k]].text)
  }

  predicate IsTitle(p: Para) { p.css.TitleNum? }

  predicate IsChapter(p: Para) { p.css.ChapterNum? }

  predicate IsMention(p: Para) { p.css.Mention? }

  predicate IsArticle(p: Para) { p.css.ArticleNum? }

  predicate SaysTitle(p: Para) { p.css.TitleWording? && p.text != "" }

  predicate SaysChapter(p: Para) { p.css.ChapterWording? && p.text != "" }

  predicate IsOrdinary(p: Para) { p.css.Other? && p.text != "" }

  /** One paragraph less: it is the last of the places, or none of them. */
  lemma PlacesBefore(keep: Para -> bool, ps: seq<Para>, lo: int, hi: int, places: seq<int>)
    requires -1 <= lo && lo + 1 < hi <= |ps| && AreAll(keep, ps, lo, hi, places)
    ensures keep(ps[hi - 1]) ==>
              && places != [] && places[|places| - 1] == hi - 1 && AreAll(keep, ps, lo, hi - 1, places[..|places| - 1])
              && TextsAt(ps, places) == TextsAt(ps, places[..|places| - 1]) + [ps[hi - 1].text]
    ensures !keep(ps[hi - 1]) ==> AreAll(keep, ps, lo, hi - 1, places)
  {
    if keep(ps[hi - 1]) {
      assert hi - 1 in places;
      var k :| 0 <= k < |places| && places[k] == hi - 1;
      assert places[|places| - 1] in places;
      assert k == |places| - 1;
      var init := places[..|places| - 1];
      forall i ensures i in init <==> lo < i < hi - 1 && keep(ps[i]) {
        assert i in places <==> i in init || i == hi - 1;
        if i in init { var j :| 0 <= j < |init| && init[j] == i; }
      }
    }
  }

  lemma NoPlaces(keep: Para -> bool, ps: seq<Para>, lo: int, places: seq<int>)
    requires -1 <= lo < |ps| && AreAll(keep, ps, lo, lo + 1, places)
    ensures places == []
  {
    var first := if places != [] then places[0] else 0;
    assert places != [] ==> first in places;
  }

  /** A heading: its number, then each wording since. */
  function HeadingText(ps: seq<Para>, number: nat, wordings: seq<int>): string
    requires number < |ps| && forall i :: i in wordings ==> 0 <= i < |ps|
  {
    Join(DASH, [ps[number].text] + TextsAt(ps, wordings))
  }

  lemma OneWordingMore(ps: seq<Para>, number: nat, wordings: seq<int>, all: seq<int>, i: nat)
    requires number < |ps| && i < |ps| && (forall j :: j in wordings ==> 0 <= j < |ps|) && forall j :: j in all ==> 0 <= j < |ps|
    requires TextsAt(ps, all) == TextsAt(ps, wordings) + [ps[i].text]
    ensures HeadingText(ps, number, all) == HeadingText(ps, number, wordings) + DASH + ps[i].text
  {
    JoinSnoc(DASH, [ps[number].text] + TextsAt(ps, wordings), ps[i].text);
    assert [ps[number].text] + TextsAt(ps, all) == [ps[number].text] + TextsAt(ps, wordings) + [ps[i].text];
  }

  lemma {:induction false} TitleIs(ps: seq<Para>, i: nat, t: int, wordings: seq<int>)
    requires i <= |ps| && IsLast(IsTitle, ps, -1, i, t) && AreAll(SaysTitle, ps, t, i, wordings)
    ensures TitleAfter(ps[..i]) == if t < 0 then None else Some(HeadingText(ps, t, wordings))
  {
    if i == 0 {
    } else {
      assert ps[..i][..i - 1] == ps[..i - 1];
      if t == i - 1 {
        NoPlaces(SaysTitle, ps, t, wordings);
        assert [ps[t].text] + TextsAt(ps, wordings) == [ps[t].text];
      } else {
        PlacesBefore(SaysTitle, ps, t, i, wordings);
        if SaysTitle(ps[i - 1]) {
          TitleIs(ps, i - 1, t, wordings[..|wordings| - 1]);
          if t >= 0 { OneWordingMore(ps, t, wordings[..|wordings| - 1], wordings, i - 1); }
        } else {
          TitleIs(ps, i - 1, t, wordings);
        }
      }
    }
  }

  lemma ChapterStep(ps: seq<Para>, i: nat)
    requires 0 < i <= |ps|
    ensures var p, before := ps[i - 1], ChapterAfter(ps[..i - 1]);
            ChapterAfter(ps[..i]) == if IsChapter(p) then Some(p.text) else if IsTitle(p) then None
                                     else if SaysChapter(p) && before.Some? then Some(before.value + DASH + p.text) else before
  {
    assert ps[..i][..i - 1] == ps[..i - 1];
  }

  lemma {:induction false} ChapterIs(ps: seq<Para>, i: nat, t: int, c: int, wordings: seq<int>)
    requires i <= |ps| && IsLast(IsTitle, ps, -1, i, t) && IsLast(IsChapter, ps, t, i, c) && AreAll(SaysChapter, ps, c, i, wordings)
    ensures ChapterAfter(ps[..i]) == if c == t then None else Some(HeadingText(ps, c, wordings))
  {
    if i == 0 {
    } else {
      ChapterStep(ps, i);
      if t == i - 1 {
      } else if c == i - 1 {
        NoPlaces(SaysChapter, ps, c, wordings);
        assert [ps[c].text] + TextsAt(ps, wordings) == [ps[c].text];
      } else {
        PlacesBefore(SaysChapter, ps, c, i, wordings);
        if SaysChapter(ps[i - 1]) {
          ChapterIs(ps, i - 1, t, c, wordings[..|wordings| - 1]);
          if c > t { OneWordingMore(ps, c, wordings[..|wordings| - 1], wordings, i - 1); }
        } else {
          ChapterIs(ps, i - 1, t, c, wordings);
        }
      }
    }
  }

  /**
   The section of an article: the last title number before its heading with the wordings since,
   then the last chapter number since that title with the wordings since; each may be missing or empty.
   */
  lemma SectionIs(ps: seq<Para>, k: nat, t: int, titleWordings: seq<int>, c: int, chapterWordings: seq<int>)
    requires k < |Segment(ps)|
    requires IsLast(IsTitle, ps, -1, Openings(ps)[k], t) && AreAll(SaysTitle, ps, t, Openings(ps)[k], titleWordings)
    requires IsLast(IsChapter, ps, t, Openings(ps)[k], c) && AreAll(SaysChapter, ps, c, Openings(ps)[k], chapterWordings)
    ensures var title := if t < 0 then "" else HeadingText(ps, t, titleWordings);
            var chapter := if c == t then "" else HeadingText(ps, c, chapterWordings);
            && (title != "" && chapter != "" ==> Segment(ps)[k].section == Some(title + DASH + chapter))
            && (title != "" && chapter == "" ==> Segment(ps)[k].section == Some(title))
            && (title == "" && chapter != "" ==> Segment(ps)[k].section == Some(chapter))
            && (title == "" && chapter == "" ==> Segment(ps)[k].section == None)
  {
    TitleIs(ps, Openings(ps)[k], t, titleWordings);
    ChapterIs(ps, Openings(ps)[k], t, c, chapterWordings);
  }

  lemma {:induction false} MentionAfter(ps: seq<Para>, lo: nat, hi: nat, m: int)
    requires lo < hi <= |ps| && IsLast(IsMention, ps, lo, hi, m)
    ensures LastMention(ps[lo + 1..hi]) == if m == lo then None else OrNone(StripParentheses(ps[m].text))
  {
    if hi == lo + 1 {
    } else {
      ReadOne(ps, hi - 1, lo);
      if m < hi - 1 { MentionAfter(ps, lo, hi - 1, m); }
    }
  }

  lemma {:induction false} AlineasAre(ps: seq<Para>, lo: nat, hi: nat, places: seq<int>)
    requires lo < hi <= |ps| && AreAll(IsOrdinary, ps, lo, hi, places)
    ensures Alineas(ps[lo + 1..hi]) == TextsAt(ps, places)
  {
    if hi == lo + 1 {
      NoPlaces(IsOrdinary, ps, lo, places);
    } else {
      ReadOne(ps, hi - 1, lo);
      PlacesBefore(IsOrdinary, ps, lo, hi, places);
      if IsOrdinary(ps[hi - 1]) {
        AlineasAre(ps, lo, hi - 1, places[..|places| - 1]);
      } else {
        AlineasAre(ps, lo, hi - 1, places);
      }
    }
  }

  /** The paragraphs of an article end at the next article heading, empty or not, or with the document. */
  ghost predicate EndsAt(ps: seq<Para>, start: nat, end: nat)
    requires start < |ps|
  {
    && start < end <= |ps| && (forall j :: start < j < end ==> !ps[j].css.ArticleNum?)
    && (end < |ps| ==> ps[end].css.ArticleNum?)
  }

  /** Its mention is that of the last mention paragraph of the article, between its parentheses. */
  lemma MentionIs(ps: seq<Para>, k: nat, end: nat, m: int)
    requires k < |Segment(ps)| && EndsAt(ps, Openings(ps)[k], end) && IsLast(IsMention, ps, Openings(ps)[k], end, m)
    ensures var inside := if m == Openings(ps)[k] then "" else StripParentheses(ps[m].text);
            Segment(ps)[k].mention == if inside == "" then None else Some(inside)
  {
    NextHeadingIs(ps, Openings(ps)[k] + 1, end);
    MentionAfter(ps, Openings(ps)[k], end, m);
  }

  /** Its content is its ordinary, non-empty paragraphs, one per line. */
  lemma ContentIs(ps: seq<Para>, k: nat, end: nat, places: seq<int>)
    requires k < |Segment(ps)| && EndsAt(ps, Openings(ps)[k], end) && AreAll(IsOrdinary, ps, Openings(ps)[k], end, places)
    ensures Segment(ps)[k].content == if places == [] then None else Some(Join("\n", TextsAt(ps, places)))
  {
    var span := Span(ps, Openings(ps)[k]);
    NextHeadingIs(ps, Openings(ps)[k] + 1, end);
    AlineasAre(ps, Openings(ps)[k], end, places);
    AlineasNonEmpty(span);
    if places != [] {
      assert Alineas(span)[0] in Alineas(span);
      assert Join("\n", Alineas(span)) != "";
    }
  }

  // Each of these positions exists, so the three lemmas speak of every article.

  lemma {:induction false} LastExists(keep: Para -> bool, ps: seq<Para>, lo: int, hi: int) returns (at: int)
    requires -1 <= lo < hi <= |ps|
    ensures IsLast(keep, ps, lo, hi, at)
    decreases hi
  {
    if hi == lo + 1 {
      at := lo;
    } else if keep(ps[hi - 1]) {
      at := hi - 1;
    } else {
      at := LastExists(keep, ps, lo, hi - 1);
    }
  }

  lemma {:induction false} PlacesExist(keep: Para -> bool, ps: seq<Para>, lo: int, hi: int) returns (places: seq<int>)
    requires -1 <= lo < hi <= |ps|
    ensures AreAll(keep, ps, lo, hi, places)
    decreases hi
  {
    if hi == lo + 1 {
      places := [];
    } else {
      var before := PlacesExist(keep, ps, lo, hi - 1);
      if keep(ps[hi - 1]) {
        places := before + [hi - 1];
        forall j, k | 0 <= j < k < |places| ensures places[j] < places[k] { assert places[j] in before; }
        assert forall i :: i in places <==> i in before || i == hi - 1;
      } else {
        places := before;
      }
    }
  }
}

/** The keyword matcher: a pure predicate deciding whether an article's text
    satisfies a rule's comma-separated include and exclude keyword lists. */
module Matcher {
  import opened Base
  import opened Text

  /** The two keyword fields of a rule, as stored (nullable strings). */
  datatype RuleCriteria = RuleCriteria(includeKeywords: Option<string>, excludeKeywords: Option<string>)

  /** The three text fields of an article. */
  datatype ArticleText = ArticleText(title: string, summary: Option<string>, content: Option<string>)

  /** A parsed keyword: non-empty, comma-free, and without surrounding whitespace. */
  predicate CleanKeyword(k: string) {
    k != "" && ',' !in k && !IsSpace(k[0]) && !IsSpace(k[|k| - 1])
  }

  /** Every piece, stripped. */
  function StripAll(pieces: seq<string>): (r: seq<string>)
    ensures |r| == |pieces|
    ensures forall i :: 0 <= i < |pieces| ==> r[i] == Strip(pieces[i])
  {
    if pieces == [] then [] else [Strip(pieces[0])] + StripAll(pieces[1..])
  }

  predicate NonEmpty(k: string) {
    k != ""
  }

  /** Strip every piece and keep the non-empty results, in order. */
  function KeepStripped(pieces: seq<string>): (r: seq<string>)
    ensures |r| <= |pieces|
    ensures forall i :: 0 <= i < |r| ==> r[i] != "" && !IsSpace(r[i][0]) && !IsSpace(r[i][|r[i]| - 1])
    ensures forall k :: k in r <==> k != "" && k in StripAll(pieces)
  {
    if pieces == [] then []
    else
      var s := Strip(pieces[0]);
      var rest := KeepStripped(pieces[1..]);
      assert StripAll(pieces) == [s] + StripAll(pieces[1..]);
      if s != "" then [s] + rest else rest
  }

  /** The kept keywords are exactly the non-empty stripped pieces, in their
      order and with their repetitions. */
  lemma {:induction false} KeepStrippedIsFilter(pieces: seq<string>)
    ensures KeepStripped(pieces) == Filter(StripAll(pieces), NonEmpty)
  {
    if pieces != [] {
      var all := StripAll(pieces);
      assert all[0] == Strip(pieces[0]);
      assert all[1..] == StripAll(pieces[1..]);
      KeepStrippedIsFilter(pieces[1..]);
    }
  }

  lemma {:induction false} KeepStrippedNoComma(pieces: seq<string>)
    requires forall i :: 0 <= i < |pieces| ==> ',' !in pieces[i]
    ensures forall i :: 0 <= i < |KeepStripped(pieces)| ==> ',' !in KeepStripped(pieces)[i]
  {
    if pieces != [] {
      StripNoChar(pieces[0], ',');
      KeepStrippedNoComma(pieces[1..]);
    }
  }

  /** `_parse_keywords`: split on ',', strip each token, drop the empty ones;
      a missing or empty string gives no keywords. */
  function ParseKeywords(s: Option<string>): (r: seq<string>)
    ensures !Truthy(s) ==> r == []
    ensures forall i :: 0 <= i < |r| ==> CleanKeyword(r[i])
    ensures Truthy(s) ==> forall k :: k in r <==> k != "" && k in StripAll(Split(s.value, ','))
  {
    if !Truthy(s) then []
    else
      KeepStrippedNoComma(Split(s.value, ','));
      KeepStripped(Split(s.value, ','))
  }

  /** The parsed keywords are the list the parse loop builds: the stripped
      tokens, in their order and with their repetitions, empty ones left out. */
  lemma ParseKeywordsInOrder(s: string)
    requires s != ""
    ensures ParseKeywords(Some(s)) == Filter(StripAll(Split(s, ',')), NonEmpty)
  {
    KeepStrippedIsFilter(Split(s, ','));
  }

  lemma StripPython(p: string)
    requires p == "  python  "
    ensures Strip(p) == "python"
  {
    assert p[0] == ' ' && p[1] == ' ' && p[2] == 'p' && p[7] == 'n' && p[8] == ' ' && p[9] == ' ';
    assert SpanStart(p, 2) == 2;
    assert SpanStart(p, 1) == 2;
    assert SpanStart(p, 0) == 2;
    assert SpanEnd(p, 2, 8) == 8;
    assert SpanEnd(p, 2, 9) == 8;
    assert SpanEnd(p, 2, |p|) == 8;
    assert p[2..8] == "python";
  }

  lemma StripRust(q: string)
    requires q == "  rust  "
    ensures Strip(q) == "rust"
  {
    assert q[0] == ' ' && q[1] == ' ' && q[2] == 'r' && q[5] == 't' && q[6] == ' ' && q[7] == ' ';
    assert SpanStart(q, 2) == 2;
    assert SpanStart(q, 1) == 2;
    assert SpanStart(q, 0) == 2;
    assert SpanEnd(q, 2, 6) == 6;
    assert SpanEnd(q, 2, 7) == 6;
    assert SpanEnd(q, 2, |q|) == 6;
    assert q[2..6] == "rust";
  }

  lemma SplitDocExample(s: string, p: string, q: string)
    requires s == "  python  ,,  rust  " && p == "  python  " && q == "  rust  "
    ensures Split(s, ',') == [p, "", q]
  {
    var pieces := [p, "", q];
    assert Join(pieces[2..], ',') == q;
    assert Join(pieces[1..], ',') == "" + [','] + q;
    assert Join(pieces, ',') == s;
    JoinSplit(pieces, ',');
  }

  /** Two keywords around an empty token are kept, in order. */
  lemma KeepAroundEmpty(pieces: seq<string>, a: string, c: string)
    requires |pieces| == 3 && Strip(pieces[0]) == a && pieces[1] == "" && Strip(pieces[2]) == c
    requires a != "" && c != ""
    ensures KeepStripped(pieces) == [a, c]
  {
    assert Strip("") == "";
    assert pieces[1..][1..][1..] == [];
    assert KeepStripped(pieces[1..][1..]) == [c];
    assert KeepStripped(pieces[1..]) == [c];
  }

  /** The example of the parser's documentation: surrounding spaces are
      dropped, the empty token between the two commas is skipped, and the
      order is kept. */
  lemma ParseDocExample(s: string, p: string, q: string)
    requires s == "  python  ,,  rust  " && p == "  python  " && q == "  rust  "
    ensures ParseKeywords(Some(s)) == ["python", "rust"]
  {
    SplitDocExample(s, p, q);
    StripPython(p);
    StripRust(q);
    KeepAroundEmpty(Split(s, ','), "python", "rust");
  }

  lemma {:induction false} KeepStrippedClean(ks: seq<string>)
    requires forall i :: 0 <= i < |ks| ==> CleanKeyword(ks[i])
    ensures KeepStripped(ks) == ks
  {
    if ks != [] {
      StripOfStripped(ks[0]);
      KeepStrippedClean(ks[1..]);
    }
  }

  /** Round trip: writing clean keywords back as a comma-separated string and
      parsing it gives the same keywords. */
  lemma ParseJoinedKeywords(ks: seq<string>)
    requires forall i :: 0 <= i < |ks| ==> CleanKeyword(ks[i])
    ensures ParseKeywords(Some(Join(ks, ','))) == ks
  {
    if ks != [] {
      JoinSplit(ks, ',');
      KeepStrippedClean(ks);
      assert Join(ks, ',') != "" by { assert |Join(ks, ',')| >= |ks[0]|; }
    }
  }

  lemma {:induction false} KeepStrippedLower(pieces: seq<string>)
    ensures KeepStripped(MapLower(pieces)) == MapLower(KeepStripped(pieces))
  {
    if pieces != [] {
      StripLower(pieces[0]);
      assert MapLower(pieces)[1..] == MapLower(pieces[1..]);
      KeepStrippedLower(pieces[1..]);
    }
  }

  /** Parsing commutes with lower-casing the keyword string. */
  lemma ParseKeywordsLower(s: string)
    ensures ParseKeywords(Some(LowerStr(s))) == MapLower(ParseKeywords(Some(s)))
  {
    if s != "" {
      SplitLower(s, ',');
      KeepStrippedLower(Split(s, ','));
    }
  }

  /** A string of only commas and whitespace parses to no keywords. */
  lemma {:induction false} BlankPiecesDropped(pieces: seq<string>)
    requires forall i, j :: 0 <= i < |pieces| && 0 <= j < |pieces[i]| ==> IsSpace(pieces[i][j])
    ensures KeepStripped(pieces) == []
  {
    if pieces != [] {
      StripEmptyIff(pieces[0]);
      BlankPiecesDropped(pieces[1..]);
    }
  }

  // ---------------------------------------------------------------------
  // Search text

  /** The non-empty fields, in the order title, summary, content. */
  function Parts(a: ArticleText): (r: seq<string>)
    ensures forall i :: 0 <= i < |r| ==> r[i] != ""
    ensures r == [] <==> a.title == "" && !Truthy(a.summary) && !Truthy(a.content)
  {
    (if a.title != "" then [a.title] else [])
    + (if Truthy(a.summary) then [a.summary.value] else [])
    + (if Truthy(a.content) then [a.content.value] else [])
  }

  lemma {:induction false} ContainsJoinPart(parts: seq<string>, sep: char, i: int)
    requires 0 <= i < |parts|
    ensures Contains(Join(parts, sep), parts[i])
  {
    if |parts| == 1 {
      ContainsSelf(parts[0]);
    } else {
      assert Join(parts, sep) == parts[0] + ([sep] + Join(parts[1..], sep));
      if i == 0 {
        ContainsSelf(parts[0]);
        ContainsAppend(parts[0], [sep] + Join(parts[1..], sep), parts[0]);
      } else {
        ContainsJoinPart(parts[1..], sep, i - 1);
        ContainsAppend([sep], Join(parts[1..], sep), parts[i]);
        ContainsAppend(parts[0], [sep] + Join(parts[1..], sep), parts[i]);
      }
    }
  }

  lemma JoinEmptyIff(parts: seq<string>, sep: char)
    requires forall i :: 0 <= i < |parts| ==> parts[i] != ""
    ensures Join(parts, sep) == "" <==> parts == []
  {
    if parts != [] {
      assert |Join(parts, sep)| >= |parts[0]|;
    }
  }

  /** `_build_searchable_text`: the non-empty fields joined by single spaces,
      lower-cased.  It is lower case, contains every present field (lower-cased),
      and is empty exactly when every field is. */
  function SearchableText(a: ArticleText): (r: string)
    ensures IsLowerStr(r)
    ensures a.title != "" ==> Contains(r, LowerStr(a.title))
    ensures Truthy(a.summary) ==> Contains(r, LowerStr(a.summary.value))
    ensures Truthy(a.content) ==> Contains(r, LowerStr(a.content.value))
    ensures r == "" <==> a.title == "" && !Truthy(a.summary) && !Truthy(a.content)
  {
    PartsJoinFacts(a);
    LowerStr(Join(Parts(a), ' '))
  }

  lemma PartsJoinFacts(a: ArticleText)
    ensures var r := LowerStr(Join(Parts(a), ' '));
      && (a.title != "" ==> Contains(r, LowerStr(a.title)))
      && (Truthy(a.summary) ==> Contains(r, LowerStr(a.summary.value)))
      && (Truthy(a.content) ==> Contains(r, LowerStr(a.content.value)))
      && (r == "" <==> Parts(a) == [])
  {
    var parts := Parts(a);
    JoinLower(parts, ' ');
    JoinEmptyIff(parts, ' ');
    forall i | 0 <= i < |parts| ensures Contains(Join(MapLower(parts), ' '), LowerStr(parts[i])) {
      ContainsJoinPart(MapLower(parts), ' ', i);
    }
    if a.title != "" {
      assert parts[0] == a.title;
    }
    if Truthy(a.summary) {
      assert parts[if a.title != "" then 1 else 0] == a.summary.value;
    }
    if Truthy(a.content) {
      assert parts[|parts| - 1] == a.content.value;
    }
  }

  /** Two articles whose fields agree up to letter case. */
  predicate SameUpToCase(a: ArticleText, b: ArticleText) {
    LowerStr(a.title) == LowerStr(b.title)
    && SameOptUpToCase(a.summary, b.summary)
    && SameOptUpToCase(a.content, b.content)
  }

  predicate SameOptUpToCase(x: Option<string>, y: Option<string>) {
    x.Some? == y.Some? && (x.Some? ==> LowerStr(x.value) == LowerStr(y.value))
  }

  /** The search text ignores the case of the article's fields. */
  lemma SearchableTextCase(a: ArticleText, b: ArticleText)
    requires SameUpToCase(a, b)
    ensures SearchableText(a) == SearchableText(b)
  {
    var pa, pb := Parts(a), Parts(b);
    assert |LowerStr(a.title)| == |a.title| && |LowerStr(b.title)| == |b.title|;
    assert a.summary.Some? ==> |LowerStr(a.summary.value)| == |a.summary.value|;
    assert b.summary.Some? ==> |LowerStr(b.summary.value)| == |b.summary.value|;
    assert a.content.Some? ==> |LowerStr(a.content.value)| == |a.content.value|;
    assert b.content.Some? ==> |LowerStr(b.content.value)| == |b.content.value|;
    assert MapLower(pa) == MapLower(pb);
    JoinLower(pa, ' ');
    JoinLower(pb, ' ');
  }

  // ---------------------------------------------------------------------
  // Matching

  /** `_any_keyword_matches`: some keyword, lower-cased, is a substring of the text. */
  function AnyKeywordMatches(keywords: seq<string>, text: string): (r: bool)
    ensures r <==> exists k :: k in keywords && Contains(text, LowerStr(k))
  {
    if keywords == [] then false
    else if Contains(text, LowerStr(keywords[0])) then
      assert keywords[0] in keywords;
      true
    else
      assert forall k :: k in keywords <==> k == keywords[0] || k in keywords[1..];
      AnyKeywordMatches(keywords[1..], text)
  }

  /** Lower-casing the keywords first changes nothing. */
  lemma AnyKeywordMatchesLower(keywords: seq<string>, text: string)
    ensures AnyKeywordMatches(MapLower(keywords), text) == AnyKeywordMatches(keywords, text)
  {
    forall i | 0 <= i < |keywords| ensures LowerStr(MapLower(keywords)[i]) == LowerStr(keywords[i]) {
      LowerStrIdempotent(keywords[i]);
    }
    if AnyKeywordMatches(keywords, text) {
      var k :| k in keywords && Contains(text, LowerStr(k));
      var i :| 0 <= i < |keywords| && keywords[i] == k;
      assert MapLower(keywords)[i] in MapLower(keywords);
    }
    if AnyKeywordMatches(MapLower(keywords), text) {
      var k :| k in MapLower(keywords) && Contains(text, LowerStr(k));
      var i :| 0 <= i < |keywords| && MapLower(keywords)[i] == k;
      assert keywords[i] in keywords;
    }
  }

  /** `matches_rule`: no exclude keyword occurs, and either there are no
      include keywords or one of them occurs. */
  function MatchesRule(rule: RuleCriteria, a: ArticleText): (r: bool)
    ensures var text := SearchableText(a);
      r <==> (forall k :: k in ParseKeywords(rule.excludeKeywords) ==> !Contains(text, LowerStr(k)))
             && (ParseKeywords(rule.includeKeywords) == []
                 || exists k :: k in ParseKeywords(rule.includeKeywords) && Contains(text, LowerStr(k)))
  {
    var inc := ParseKeywords(rule.includeKeywords);
    var exc := ParseKeywords(rule.excludeKeywords);
    var text := SearchableText(a);
    if exc != [] && AnyKeywordMatches(exc, text) then false
    else if inc == [] then true
    else AnyKeywordMatches(inc, text)
  }

  /** Exclude wins: an exclude hit rejects the article whatever the includes say. */
  lemma ExcludeWins(rule: RuleCriteria, a: ArticleText, k: string)
    requires k in ParseKeywords(rule.excludeKeywords)
    requires Contains(SearchableText(a), LowerStr(k))
    ensures !MatchesRule(rule, a)
  {
  }

  /** Without include keywords, every article that no exclude keyword hits matches. */
  lemma EmptyIncludeMatchesAll(rule: RuleCriteria, a: ArticleText)
    requires ParseKeywords(rule.includeKeywords) == []
    ensures MatchesRule(rule, a) <==> !AnyKeywordMatches(ParseKeywords(rule.excludeKeywords), SearchableText(a))
  {
  }

  /** With include keywords and no exclude hit, matching is any-of. */
  lemma IncludeAnyOf(rule: RuleCriteria, a: ArticleText)
    requires ParseKeywords(rule.includeKeywords) != []
    requires !AnyKeywordMatches(ParseKeywords(rule.excludeKeywords), SearchableText(a))
    ensures MatchesRule(rule, a) <==> AnyKeywordMatches(ParseKeywords(rule.includeKeywords), SearchableText(a))
  {
  }

  /** Matching ignores the case of the article text. */
  lemma MatchIgnoresArticleCase(rule: RuleCriteria, a: ArticleText, b: ArticleText)
    requires SameUpToCase(a, b)
    ensures MatchesRule(rule, a) == MatchesRule(rule, b)
  {
    SearchableTextCase(a, b);
  }

  function LowerOpt(s: Option<string>): (r: Option<string>)
    ensures r.Some? == s.Some?
    ensures s.Some? ==> r.value == LowerStr(s.value)
  {
    if s.Some? then Some(LowerStr(s.value)) else None
  }

  lemma ParseKeywordsLowerOpt(s: Option<string>)
    ensures ParseKeywords(LowerOpt(s)) == MapLower(ParseKeywords(s))
  {
    if s.Some? {
      ParseKeywordsLower(s.value);
    }
  }

  /** Matching ignores the case of the rule's keywords. */
  lemma MatchIgnoresKeywordCase(rule: RuleCriteria, a: ArticleText)
    ensures MatchesRule(RuleCriteria(LowerOpt(rule.includeKeywords), LowerOpt(rule.excludeKeywords)), a)
         == MatchesRule(rule, a)
  {
    var text := SearchableText(a);
    ParseKeywordsLowerOpt(rule.includeKeywords);
    ParseKeywordsLowerOpt(rule.excludeKeywords);
    AnyKeywordMatchesLower(ParseKeywords(rule.includeKeywords), text);
    AnyKeywordMatchesLower(ParseKeywords(rule.excludeKeywords), text);
  }

  /** An article without any text matches exactly the rules with no include keywords. */
  lemma EmptyArticle(rule: RuleCriteria)
    ensures MatchesRule(rule, ArticleText("", None, None)) <==> ParseKeywords(rule.includeKeywords) == []
  {
    var text := SearchableText(ArticleText("", None, None));
    assert text == "";
    forall k | k in ParseKeywords(rule.excludeKeywords) ensures !Contains(text, LowerStr(k)) {
      ContainsInEmpty(LowerStr(k));
    }
    forall k | k in ParseKeywords(rule.includeKeywords) ensures !Contains(text, LowerStr(k)) {
      ContainsInEmpty(LowerStr(k));
    }
  }

  // ---------------------------------------------------------------------
  // Worked cases

  /** A rule with one include keyword and no exclude keywords matches an
      article whose text contains that keyword. */
  lemma IncludeHit(k: string, a: ArticleText)
    requires CleanKeyword(k) && Contains(SearchableText(a), LowerStr(k))
    ensures MatchesRule(RuleCriteria(Some(k), None), a)
  {
    SingleKeyword(k);
  }

  /** A rule with one exclude keyword rejects an article whose text contains it. */
  lemma ExcludeHit(inc: Option<string>, k: string, a: ArticleText)
    requires CleanKeyword(k) && Contains(SearchableText(a), LowerStr(k))
    ensures !MatchesRule(RuleCriteria(inc, Some(k)), a)
  {
    SingleKeyword(k);
    ExcludeWins(RuleCriteria(inc, Some(k)), a, k);
  }

  lemma TitleOnlyText(title: string)
    requires title != ""
    ensures SearchableText(ArticleText(title, None, None)) == LowerStr(title)
  {
    assert Parts(ArticleText(title, None, None)) == [title];
  }

  lemma TitleSummaryText(title: string, summary: string)
    requires title != "" && summary != ""
    ensures SearchableText(ArticleText(title, Some(summary), None)) == LowerStr(title + " " + summary)
  {
    assert Parts(ArticleText(title, Some(summary), None)) == [title, summary];
    assert Join([title, summary], ' ') == title + [' '] + Join([summary], ' ');
  }

  /** Substring, not word, matching: "py" matches an article titled "Python". */
  lemma SubstringMatchCase(inc: string, title: string)
    requires inc == "py" && title == "Python"
    ensures MatchesRule(RuleCriteria(Some(inc), None), ArticleText(title, None, None))
  {
    TitleOnlyText(title);
    var head, tail := title[..2], title[2..];
    assert title == head + tail;
    LowerStrAppend(head, tail);
    assert LowerStr(head) == inc == LowerStr(inc);
    ContainsSelf(inc);
    ContainsAppend(inc, LowerStr(tail), inc);
    IncludeHit(inc, ArticleText(title, None, None));
  }

  /** Fields are joined by one space, so a two-word keyword can span the
      title and the summary. */
  lemma JoinedFieldsCase(inc: string, title: string, summary: string)
    requires inc == "ai ml" && title == "AI" && summary == "ML"
    ensures MatchesRule(RuleCriteria(Some(inc), None), ArticleText(title, Some(summary), None))
  {
    TitleSummaryText(title, summary);
    assert LowerStr(title + " " + summary) == inc == LowerStr(inc);
    ContainsSelf(inc);
    IncludeHit(inc, ArticleText(title, Some(summary), None));
  }

  /** Exclude wins over a matching include: the rule "go" / "spam" rejects
      an article titled "Go spam". */
  lemma ExcludeWinsCase(inc: string, exc: string, head: string)
    requires inc == "go" && exc == "spam" && head == "Go "
    ensures !MatchesRule(RuleCriteria(Some(inc), Some(exc)), ArticleText(head + exc, None, None))
  {
    TitleOnlyText(head + exc);
    LowerStrAppend(head, exc);
    LowerOfLower(exc);
    ContainsSelf(exc);
    ContainsAppend(LowerStr(head), exc, exc);
    ExcludeHit(Some(inc), exc, ArticleText(head + exc, None, None));
  }

  lemma SingleKeyword(k: string)
    requires CleanKeyword(k)
    ensures ParseKeywords(Some(k)) == [k]
  {
    ParseJoinedKeywords([k]);
  }
}

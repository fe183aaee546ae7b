/** Running one rule: collect the candidate articles of its scope, keep those
    the keyword matcher accepts, record a match row for each one not yet
    matched by this rule, and stamp the rule's last run time. */
module RuleRunner {
  import opened Base
  import opened Models
  import opened Store
  import opened Matcher

  /** The counts a run reports. */
  datatype RunRuleResult = RunRuleResult(ruleId: RuleId, candidates: nat, matched: nat, created: nat, skipped: nat)

  /** Raised when no rule has the requested id. */
  datatype RuleNotFoundError = RuleNotFoundError(ruleId: RuleId)

  function CriteriaOf(rule: Rule): RuleCriteria {
    RuleCriteria(rule.includeKeywords, rule.excludeKeywords)
  }

  function TextOf(a: Article): ArticleText {
    ArticleText(a.title, a.summary, a.content)
  }

  /** The collections a rule draws from: its own collection when scoped,
      otherwise every collection its owner has. */
  function ScopeCollections(rule: Rule, collections: map<CollectionId, Collection>): (r: set<CollectionId>)
    ensures rule.collectionId.Some? ==> r == {rule.collectionId.value}
    ensures rule.collectionId.None? ==>
              forall c :: c in r <==> c in collections && collections[c].userId == rule.userId
  {
    if rule.collectionId.Some? then {rule.collectionId.value}
    else set c | c in collections && collections[c].userId == rule.userId
  }

  /** The feeds linked to the rule's scope. */
  function CandidateFeeds(rule: Rule, collections: map<CollectionId, Collection>, links: set<Link>): (r: set<FeedId>)
    ensures forall f :: f in r <==> exists c :: c in ScopeCollections(rule, collections) && Link(c, f) in links
  {
    var scope := ScopeCollections(rule, collections);
    var r := set l | l in links && l.collectionId in scope :: l.feedId;
    assert forall f :: f in r ==> exists c :: c in scope && Link(c, f) in links by {
      forall f | f in r ensures exists c :: c in scope && Link(c, f) in links {
        var l :| l in links && l.collectionId in scope && l.feedId == f;
        assert l == Link(l.collectionId, f);
      }
    }
    r
  }

  /** `_get_candidate_articles`: the articles of the candidate feeds, each
      once, in id order. */
  function CandidateArticles(rule: Rule, collections: map<CollectionId, Collection>, links: set<Link>,
                             articles: Table<Article>): (r: seq<ArticleId>)
    requires articles.WellFormed()
    ensures StrictlyIncreasing(r) && NoDup(r)
    ensures forall id :: id in r <==>
              id in articles.rows && articles.rows[id].feedId in CandidateFeeds(rule, collections, links)
  {
    var feeds := CandidateFeeds(rule, collections, links);
    CandidateFacts(articles, feeds);
    Filter(articles.Ids(), (id: ArticleId) => InFeeds(articles.rows, feeds, id))
  }

  predicate InFeeds(rows: map<ArticleId, Article>, feeds: set<FeedId>, id: ArticleId) {
    id in rows && rows[id].feedId in feeds
  }

  lemma CandidateFacts(articles: Table<Article>, feeds: set<FeedId>)
    requires articles.WellFormed()
    ensures var r := Filter(articles.Ids(), (id: ArticleId) => InFeeds(articles.rows, feeds, id));
            StrictlyIncreasing(r) && NoDup(r)
  {
    FilterIncreasing(articles.Ids(), (id: ArticleId) => InFeeds(articles.rows, feeds, id));
    IncreasingNoDup(Filter(articles.Ids(), (id: ArticleId) => InFeeds(articles.rows, feeds, id)));
  }

  predicate ArticleMatches(rule: Rule, articles: map<ArticleId, Article>, id: ArticleId) {
    id in articles && MatchesRule(CriteriaOf(rule), TextOf(articles[id]))
  }

  /** The candidates the matcher accepts, in candidate order. */
  function MatchedArticles(rule: Rule, articles: map<ArticleId, Article>, candidates: seq<ArticleId>): (r: seq<ArticleId>)
    ensures |r| <= |candidates|
    ensures forall id :: id in r <==> id in candidates && ArticleMatches(rule, articles, id)
    ensures NoDup(candidates) ==> NoDup(r)
  {
    Filter(candidates, id => ArticleMatches(rule, articles, id))
  }

  lemma MatchedArticlesSnoc(rule: Rule, articles: map<ArticleId, Article>, s: seq<ArticleId>, id: ArticleId)
    ensures MatchedArticles(rule, articles, s + [id])
         == MatchedArticles(rule, articles, s) + (if ArticleMatches(rule, articles, id) then [id] else [])
  {
    FilterSnoc(s, id, id => ArticleMatches(rule, articles, id));
  }

  /** This rule already has a match row for the article. */
  predicate HasMatch(matches: seq<RuleMatch>, ruleId: RuleId, id: ArticleId) {
    exists i :: 0 <= i < |matches| && matches[i].ruleId == ruleId && matches[i].articleId == id
  }

  /** `_get_existing_match_article_ids`: which of `ids` this rule has already matched. */
  function ExistingMatchIds(matches: seq<RuleMatch>, ruleId: RuleId, ids: seq<ArticleId>): (r: set<ArticleId>)
    ensures forall id :: id in r <==> id in ids && HasMatch(matches, ruleId, id)
  {
    var r := set m | m in matches && m.ruleId == ruleId && m.articleId in ids :: m.articleId;
    assert forall id :: id in ids && HasMatch(matches, ruleId, id) ==> id in r by {
      forall id | id in ids && HasMatch(matches, ruleId, id) ensures id in r {
        var i :| 0 <= i < |matches| && matches[i].ruleId == ruleId && matches[i].articleId == id;
        assert matches[i] in matches;
      }
    }
    r
  }

  /** Matched articles without a match row yet: the rows a run creates. */
  function FreshArticles(matched: seq<ArticleId>, existing: set<ArticleId>): (r: seq<ArticleId>)
    ensures forall id :: id in r <==> id in matched && id !in existing
    ensures NoDup(matched) ==> NoDup(r)
  {
    Filter(matched, id => id !in existing)
  }

  /** Matched articles that already have a row: the ones a run skips. */
  function SkippedArticles(matched: seq<ArticleId>, existing: set<ArticleId>): (r: seq<ArticleId>)
    ensures forall id :: id in r <==> id in matched && id in existing
  {
    Filter(matched, id => id in existing)
  }

  /** Every matched article is either created or skipped. */
  lemma {:induction false} CreatedPlusSkipped(matched: seq<ArticleId>, existing: set<ArticleId>)
    ensures |FreshArticles(matched, existing)| + |SkippedArticles(matched, existing)| == |matched|
  {
    if matched != [] {
      CreatedPlusSkipped(matched[1..], existing);
    }
  }

  lemma SplitSnoc(s: seq<ArticleId>, id: ArticleId, existing: set<ArticleId>)
    ensures FreshArticles(s + [id], existing) == FreshArticles(s, existing) + (if id !in existing then [id] else [])
    ensures SkippedArticles(s + [id], existing) == SkippedArticles(s, existing) + (if id in existing then [id] else [])
  {
    FilterSnoc(s, id, id => id !in existing);
    FilterSnoc(s, id, id => id in existing);
  }

  /** The match rows a run inserts, all stamped with the run's time. */
  function MatchRows(ruleId: RuleId, ids: seq<ArticleId>, now: Instant): (r: seq<RuleMatch>)
    ensures |r| == |ids|
    ensures forall i :: 0 <= i < |ids| ==> r[i] == RuleMatch(ruleId, ids[i], now)
  {
    seq(|ids|, i requires 0 <= i < |ids| => RuleMatch(ruleId, ids[i], now))
  }

  /** What one run of a rule does, computed from the state before it. */
  datatype RunPlan = RunPlan(candidates: seq<ArticleId>, matched: seq<ArticleId>,
                             created: seq<ArticleId>, skipped: seq<ArticleId>)

  function PlanRun(ruleId: RuleId, rule: Rule, collections: map<CollectionId, Collection>, links: set<Link>,
                   articles: Table<Article>, matches: seq<RuleMatch>): (p: RunPlan)
    requires articles.WellFormed()
    ensures forall id :: id in p.candidates <==>
              id in articles.rows && articles.rows[id].feedId in CandidateFeeds(rule, collections, links)
    ensures forall id :: id in p.matched <==> id in p.candidates && ArticleMatches(rule, articles.rows, id)
    ensures forall id :: id in p.created <==> id in p.matched && !HasMatch(matches, ruleId, id)
    ensures forall id :: id in p.skipped <==> id in p.matched && HasMatch(matches, ruleId, id)
    ensures NoDup(p.candidates) && NoDup(p.matched) && NoDup(p.created)
    ensures |p.matched| == |p.created| + |p.skipped|
  {
    var candidates := CandidateArticles(rule, collections, links, articles);
    var matched := MatchedArticles(rule, articles.rows, candidates);
    var existing := ExistingMatchIds(matches, ruleId, matched);
    CreatedPlusSkipped(matched, existing);
    RunPlan(candidates, matched, FreshArticles(matched, existing), SkippedArticles(matched, existing))
  }

  /** Appending rows for new, distinct articles keeps (rule, article) unique. */
  lemma NewRowsUnique(matches: seq<RuleMatch>, ruleId: RuleId, ids: seq<ArticleId>, now: Instant)
    requires UniqueMatchKeys(matches)
    requires NoDup(ids)
    requires forall id :: id in ids ==> !HasMatch(matches, ruleId, id)
    ensures UniqueMatchKeys(matches + MatchRows(ruleId, ids, now))
  {
    var all := matches + MatchRows(ruleId, ids, now);
    forall i, j | 0 <= i < j < |all| ensures all[i].ruleId != all[j].ruleId || all[i].articleId != all[j].articleId {
      if j >= |matches| {
        var fj := ids[j - |matches|];
        if i < |matches| {
          if all[i].ruleId == ruleId && all[i].articleId == fj {
            assert HasMatch(matches, ruleId, fj);
          }
        } else {
          assert ids[i - |matches|] != fj;
        }
      }
    }
  }

  /** The matching loop of `run_rule`: the candidates the matcher accepts. */
  method CollectMatched(rule: Rule, articles: map<ArticleId, Article>, candidates: seq<ArticleId>)
    returns (matched: seq<ArticleId>)
    ensures matched == MatchedArticles(rule, articles, candidates)
  {
    matched := [];
    var i := 0;
    while i < |candidates|
      invariant 0 <= i <= |candidates|
      invariant matched == MatchedArticles(rule, articles, candidates[..i])
    {
      var id := candidates[i];
      MatchedArticlesSnoc(rule, articles, candidates[..i], id);
      PrefixSnoc(candidates, i);
      if id in articles && MatchesRule(CriteriaOf(rule), TextOf(articles[id])) {
        matched := matched + [id];
      }
      i := i + 1;
    }
    assert candidates[..|candidates|] == candidates;
  }

  lemma MatchRowsSnoc(ms: seq<RuleMatch>, ruleId: RuleId, f: seq<ArticleId>, id: ArticleId, now: Instant)
    ensures (ms + MatchRows(ruleId, f, now)) + [RuleMatch(ruleId, id, now)] == ms + MatchRows(ruleId, f + [id], now)
  {
    assert MatchRows(ruleId, f + [id], now) == MatchRows(ruleId, f, now) + [RuleMatch(ruleId, id, now)];
  }

  /** What the insertion loop has done after the first `j` matched articles. */
  ghost predicate InsertedSoFar(m0: seq<RuleMatch>, ms: seq<RuleMatch>, ruleId: RuleId, matched: seq<ArticleId>,
                                existing: set<ArticleId>, now: Instant, j: nat, created: nat, skipped: nat) {
    j <= |matched|
    && ms == m0 + MatchRows(ruleId, FreshArticles(matched[..j], existing), now)
    && created == |FreshArticles(matched[..j], existing)|
    && skipped == |SkippedArticles(matched[..j], existing)|
  }

  /** One pass of the insertion loop: an article in `existing` is counted as
      skipped, any other gets its row and is counted as created. */
  lemma InsertedStep(m0: seq<RuleMatch>, ms: seq<RuleMatch>, ruleId: RuleId, matched: seq<ArticleId>,
                     existing: set<ArticleId>, now: Instant, j: nat, created: nat, skipped: nat,
                     ms': seq<RuleMatch>, created': nat, skipped': nat)
    requires j < |matched| && InsertedSoFar(m0, ms, ruleId, matched, existing, now, j, created, skipped)
    requires matched[j] in existing ==> ms' == ms && created' == created && skipped' == skipped + 1
    requires matched[j] !in existing ==>
               ms' == ms + [RuleMatch(ruleId, matched[j], now)] && created' == created + 1 && skipped' == skipped
    ensures InsertedSoFar(m0, ms', ruleId, matched, existing, now, j + 1, created', skipped')
  {
    SplitSnoc(matched[..j], matched[j], existing);
    PrefixSnoc(matched, j);
    if matched[j] !in existing {
      MatchRowsSnoc(m0, ruleId, FreshArticles(matched[..j], existing), matched[j], now);
    }
  }

  /** The insertion loop of `run_rule`: one row per matched article not in
      `existing`, counting created and skipped articles. */
  method InsertMatches(db: Database, ruleId: RuleId, matched: seq<ArticleId>, existing: set<ArticleId>, now: Instant)
    returns (created: nat, skipped: nat)
    modifies db`matches
    ensures db.matches == old(db.matches) + MatchRows(ruleId, FreshArticles(matched, existing), now)
    ensures created == |FreshArticles(matched, existing)|
    ensures skipped == |SkippedArticles(matched, existing)|
  {
    created, skipped := 0, 0;
    var j := 0;
    while j < |matched|
      invariant InsertedSoFar(old(db.matches), db.matches, ruleId, matched, existing, now, j, created, skipped)
    {
      var id := matched[j];
      ghost var ms0, created0, skipped0 := db.matches, created, skipped;
      if id in existing {
        skipped := skipped + 1;
      } else {
        db.matches := db.matches + [RuleMatch(ruleId, id, now)];
        created := created + 1;
      }
      InsertedStep(old(db.matches), ms0, ruleId, matched, existing, now, j, created0, skipped0, db.matches, created, skipped);
      j := j + 1;
    }
    assert matched[..j] == matched;
  }

  /** `run_rule`.  An unknown id changes nothing; otherwise the match rows
      of the newly matched articles are appended, the rule's last run time
      becomes `now`, and the counts of the plan are reported. */
  method RunRule(db: Database, ruleId: RuleId, now: Instant) returns (res: Result<RunRuleResult, RuleNotFoundError>)
    requires db.Valid()
    modifies db`matches, db`rules
    ensures db.Valid()
    ensures ruleId !in old(db.rules.rows) ==>
              res == Err(RuleNotFoundError(ruleId)) && db.matches == old(db.matches) && db.rules == old(db.rules)
    ensures ruleId in old(db.rules.rows) ==>
              var rule := old(db.rules.rows[ruleId]);
              var p := PlanRun(ruleId, rule, old(db.collections.rows), old(db.links), old(db.articles), old(db.matches));
              && res == Ok(RunRuleResult(ruleId, |p.candidates|, |p.matched|, |p.created|, |p.skipped|))
              && db.matches == old(db.matches) + MatchRows(ruleId, p.created, now)
              && db.rules == old(db.rules).Update(ruleId, rule.(lastRunAt := Some(now)))
  {
    if ruleId !in db.rules.rows {
      return Err(RuleNotFoundError(ruleId));
    }
    var rule := db.rules.rows[ruleId];
    ghost var p := PlanRun(ruleId, rule, db.collections.rows, db.links, db.articles, db.matches);
    NewRowsUnique(db.matches, ruleId, p.created, now);
    var candidates := CandidateArticles(rule, db.collections.rows, db.links, db.articles);
    var matched := CollectMatched(rule, db.articles.rows, candidates);
    var existing := ExistingMatchIds(db.matches, ruleId, matched);
    var created, skipped := InsertMatches(db, ruleId, matched, existing, now);
    db.rules := db.rules.Update(ruleId, rule.(lastRunAt := Some(now)));
    return Ok(RunRuleResult(ruleId, |candidates|, |matched|, created, skipped));
  }

  // ---------------------------------------------------------------------
  // Properties of runs

  /** A second run over unchanged articles creates nothing and skips every match. */
  lemma RerunCreatesNothing(ruleId: RuleId, rule: Rule, collections: map<CollectionId, Collection>,
                            links: set<Link>, articles: Table<Article>, matches: seq<RuleMatch>, now: Instant)
    requires articles.WellFormed()
    ensures var p := PlanRun(ruleId, rule, collections, links, articles, matches);
            var q := PlanRun(ruleId, rule, collections, links, articles, matches + MatchRows(ruleId, p.created, now));
            q.matched == p.matched && q.created == [] && |q.skipped| == |q.matched|
  {
    var p := PlanRun(ruleId, rule, collections, links, articles, matches);
    var q := PlanRun(ruleId, rule, collections, links, articles, matches + MatchRows(ruleId, p.created, now));
    RunLeavesAllMatched(ruleId, rule, collections, links, articles, matches, now);
    NoMembersEmpty(q.created);
  }

  /** After a run, every article the rule matches has a row for it. */
  lemma RunLeavesAllMatched(ruleId: RuleId, rule: Rule, collections: map<CollectionId, Collection>,
                            links: set<Link>, articles: Table<Article>, matches: seq<RuleMatch>, now: Instant)
    requires articles.WellFormed()
    ensures var p := PlanRun(ruleId, rule, collections, links, articles, matches);
            forall id :: id in p.matched ==> HasMatch(matches + MatchRows(ruleId, p.created, now), ruleId, id)
  {
    var p := PlanRun(ruleId, rule, collections, links, articles, matches);
    var after := matches + MatchRows(ruleId, p.created, now);
    forall id | id in p.matched ensures HasMatch(after, ruleId, id) {
      if !HasMatch(matches, ruleId, id) {
        assert id in p.created;
        var k :| 0 <= k < |p.created| && p.created[k] == id;
        assert after[|matches| + k] == RuleMatch(ruleId, id, now);
      } else {
        var i :| 0 <= i < |matches| && matches[i].ruleId == ruleId && matches[i].articleId == id;
        assert after[i] == matches[i];
      }
    }
  }

  /** Rows are only ever appended, so a recorded match stays recorded. */
  lemma HasMatchExtend(matches: seq<RuleMatch>, more: seq<RuleMatch>, ruleId: RuleId, id: ArticleId)
    requires HasMatch(matches, ruleId, id)
    ensures HasMatch(matches + more, ruleId, id)
  {
    var i :| 0 <= i < |matches| && matches[i].ruleId == ruleId && matches[i].articleId == id;
    assert (matches + more)[i] == matches[i];
  }

  /** Which articles a rule matches does not depend on the match rows. */
  lemma MatchedIgnoresRows(ruleId: RuleId, rule: Rule, collections: map<CollectionId, Collection>,
                           links: set<Link>, articles: Table<Article>, m1: seq<RuleMatch>, m2: seq<RuleMatch>)
    requires articles.WellFormed()
    ensures PlanRun(ruleId, rule, collections, links, articles, m1).matched
         == PlanRun(ruleId, rule, collections, links, articles, m2).matched
  {
  }

  /** The rule's last run time does not influence what a run does. */
  lemma PlanIgnoresLastRun(ruleId: RuleId, rule: Rule, t: Option<Instant>, collections: map<CollectionId, Collection>,
                           links: set<Link>, articles: Table<Article>, matches: seq<RuleMatch>)
    requires articles.WellFormed()
    ensures PlanRun(ruleId, rule.(lastRunAt := t), collections, links, articles, matches)
         == PlanRun(ruleId, rule, collections, links, articles, matches)
  {
    var rule' := rule.(lastRunAt := t);
    assert CriteriaOf(rule') == CriteriaOf(rule);
    assert ScopeCollections(rule', collections) == ScopeCollections(rule, collections);
    assert CandidateFeeds(rule', collections, links) == CandidateFeeds(rule, collections, links);
    var c := CandidateArticles(rule, collections, links, articles);
    assert CandidateArticles(rule', collections, links, articles) == c;
    FilterCongruent(c, id => ArticleMatches(rule', articles.rows, id), id => ArticleMatches(rule, articles.rows, id));
    assert MatchedArticles(rule', articles.rows, c) == MatchedArticles(rule, articles.rows, c);
  }

  /** After a run, adding articles and running again creates rows only for
      articles that did not exist at the first run. */
  lemma OnlyNewArticlesCreated(ruleId: RuleId, rule: Rule, collections: map<CollectionId, Collection>,
                               links: set<Link>, articles: Table<Article>, more: Table<Article>,
                               matches: seq<RuleMatch>, now: Instant)
    requires articles.WellFormed() && more.WellFormed()
    requires forall id :: id in articles.rows ==> id in more.rows && more.rows[id] == articles.rows[id]
    ensures var p := PlanRun(ruleId, rule, collections, links, articles, matches);
            var q := PlanRun(ruleId, rule, collections, links, more, matches + MatchRows(ruleId, p.created, now));
            forall id :: id in q.created ==> id !in articles.rows
  {
    var p := PlanRun(ruleId, rule, collections, links, articles, matches);
    var after := matches + MatchRows(ruleId, p.created, now);
    var q := PlanRun(ruleId, rule, collections, links, more, after);
    forall id | id in articles.rows && id in q.matched ensures HasMatch(after, ruleId, id) {
      assert id in p.matched;
      if HasMatch(matches, ruleId, id) {
        var i :| 0 <= i < |matches| && matches[i].ruleId == ruleId && matches[i].articleId == id;
        assert after[i] == matches[i];
      } else {
        assert id in p.created;
        var k :| 0 <= k < |p.created| && p.created[k] == id;
        assert after[|matches| + k] == RuleMatch(ruleId, id, now);
      }
    }
  }

  /** An unscoped rule never sees an article whose feed is linked only to
      other users' collections. */
  lemma UnscopedIsolation(rule: Rule, collections: map<CollectionId, Collection>, links: set<Link>,
                          articles: Table<Article>, id: ArticleId)
    requires articles.WellFormed()
    requires rule.collectionId.None?
    requires id in articles.rows
    requires forall l :: l in links && l.feedId == articles.rows[id].feedId ==>
               l.collectionId in collections && collections[l.collectionId].userId != rule.userId
    ensures id !in CandidateArticles(rule, collections, links, articles)
  {
    var f := articles.rows[id].feedId;
    forall c | c in ScopeCollections(rule, collections) ensures Link(c, f) !in links {
      assert Link(c, f).feedId == f;
    }
  }

  /** With no links at all there are no candidates, hence no matches. */
  lemma NoLinksNoCandidates(rule: Rule, collections: map<CollectionId, Collection>, articles: Table<Article>)
    requires articles.WellFormed()
    ensures CandidateArticles(rule, collections, {}, articles) == []
  {
    var r := CandidateArticles(rule, collections, {}, articles);
    NoMembersEmpty(r);
  }
}

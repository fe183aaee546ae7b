# Feed aggregator core, modelled in Dafny

This project models the core of a feed-aggregator backend, a FastAPI and SQLAlchemy
service. The backend works like this:

- It stores feeds and their articles.
- Each user groups feeds into collections and keeps a read/saved state per article.
- Each user defines keyword rules. A periodic scheduler runs the rules over the
  articles of the rule's collections and records a match row per matched article.
- A fetcher stores the entries of a fetched feed. It drops entries without a
  usable key and duplicates of keys the feed already holds.

The model is in Dafny. Each source module has a Dafny module of its own:

| Dafny module | file | models |
|---|---|---|
| `Base` | `base.dfy` | `Option`/`Result`, Python's `a or b`, `Table` (a map with an autoincrement id counter), order-preserving `Filter`, and a stable `SortBy` standing in for SQL `ORDER BY` |
| `Text` | `text.dfy` | ASCII `str.lower`, `str.strip`, `str.split`, `sep.join`, substring `in`, and code-point string order |
| `Models` | `models.dfy` | the stored records as datatypes |
| `Store` | `store.dfy` | class `Database`: every table as a field, and `Valid()`, which bundles the unique constraints and the timestamp invariant |
| `ArticleKey` | `article_key.dfy` | `compute_dedup_key` and the insert/update listeners (`models/article.py`) |
| `FeedUrl` | `feed_url.dfy` | `normalize_url` (`models/feed.py`) over a parsed-URL record |
| `FeedFetcher` | `feed_fetcher.dfy` | the part of `fetch_feed_articles` after the HTTP request, and `_mark_fetch_failure` |
| `Matcher` | `matcher.dfy` | `rules/matcher.py`: keyword parsing, the search text, and `matches_rule` |
| `RuleRunner` | `rule_runner.dfy` | `workers/rule_runner.py`: candidates, matching, match-row insertion, and `run_rule` |
| `RuleScheduler` | `rule_scheduler.dfy` | `workers/rule_scheduler.py`: the due predicate, `get_due_rules` and the batch `run_due_rules` |
| `ArticleStateService` | `article_state.dfy` | `services/article_state.py`: the per-user read/saved state machine |
| `CollectionArticles` | `collection_articles.dfy` | `services/collection_articles.py`: filter, sort and page |
| `CollectionFeeds` | `collection_feeds.dfy` | `services/collection_feeds.py`: idempotent link insert/delete, and listing |
| `Collections` | `collections.dfy` | `services/collections.py`: owner-scoped CRUD with per-owner unique names |
| `RuleService` | `rules_service.dfy` | `services/rules.py`: owner-scoped CRUD with partial updates |

How the source's mechanisms are modelled:

- **Reads and writes.** Read-only queries and pure helpers are functions over table
  values. Operations that change the database are methods on a `Database`. Each names
  the fields it changes in `modifies` and states the new value of each. For
  `run_due_rules` the new match rows are characterised rather than listed: each
  appended row comes from the run of one due rule that did not fail, is for an
  article that rule matches, and carries the time that run read.
- **Loops.** The source's loops are `while` loops with invariants. These are:
  - the candidate and insertion loops of the fetcher;
  - the matching and insertion loops of `run_rule`;
  - the filter loop of `get_due_rules`;
  - the batch loop of `run_due_rules`.

  Each loop is proved against a recursive specification function. The properties are
  proved about that function.
- **Errors.** HTTP 404/409 errors are `ServiceError` values. Exceptions are `Err`
  results.
- **Time.** Time is an integer count of microseconds. Current-time reads are
  parameters: `now`, or for the batch loop `clock(k)`, the time the k-th run reads.
- **External functions.** SHA-256 and the URL parser are function parameters, since
  nothing depends on how they work.

One point where docstring and code differ:

- The module docstring of `backend/app/workers/rule_runner.py` (lines 11-12) says an
  unscoped rule sees all articles in the system.
- The code (lines 99-107) restricts it to the feeds linked into collections the
  rule's owner owns.
- The model follows the code. `RuleRunner.UnscopedIsolation` proves that an article
  seen only through other users' collections is never a candidate.

## Model

| member | source | states |
|---|---|---|
| Store.Database.Valid | backend/app/models/rule_match.py:40-48 | the invariant every database operation keeps: well-formed tables, at most one match row per (rule, article), a read/save time present exactly when its flag is set, unique collection names per owner, and unique dedup keys per feed |
| Store.Database.constructor | backend/app/models/article.py:35-40 | an empty database satisfies every table invariant |
| Base.Table.Ids | backend/app/workers/rule_scheduler.py:96 | the primary keys of a table, each once, ascending |
| Base.Table.Insert | backend/app/services/rules.py:70-72 | an insert stores the row under the next autoincrement id, which no row held, and advances the counter |
| Base.Table.Update | backend/app/services/rules.py:161 | an update replaces one existing row and keeps the set of ids and the counter |
| Base.Table.Delete | backend/app/services/rules.py:188-189 | a delete removes exactly that id, keeps every other row, and keeps the counter, so the id is not handed out again (ids as from a PostgreSQL sequence) |
| Base.OrElse | backend/app/models/article.py:25 | Python `a or b`: `a` when it is a non-empty string, `b` otherwise |
| Base.OrElseInstant | backend/app/workers/feed_fetcher.py:142-144 | `a or b` on datetimes: `a` when present, `b` otherwise |
| Base.Filter | backend/app/workers/rule_runner.py:184-187 | the kept elements are exactly the input's elements satisfying the predicate, never more of them than the input has, and a duplicate-free input stays duplicate-free |
| Base.FilterPartition | backend/app/workers/rule_scheduler.py:174-189 | every element is counted by exactly one of a filter and its complement |
| Base.KeysBelow | backend/app/workers/rule_scheduler.py:96 | exactly the ids of the map below the counter, ascending |
| Base.RowsOf | backend/app/services/collection_feeds.py:138-147 | the (id, row) pairs of the given ids, in order, and no others |
| Base.SortBy | backend/app/services/collections.py:106 | `ORDER BY`: a permutation of the input (same multiset and length) in which neighbours are ordered |
| Base.SortByCorrect | backend/app/services/collections.py:106 | under a total preorder, the sorted list is ordered pairwise and is a permutation |
| Base.SortByFacts | backend/app/services/rules.py:88 | sorting keeps exactly the same members, adds no duplicates, and orders pairwise |
| Base.PermutationNoDup | backend/app/services/collection_feeds.py:143 | a permutation of a duplicate-free list is duplicate-free |
| Text.LowerStr | backend/app/rules/matcher.py:119 | ASCII `str.lower`: same length, and each character lower-cased on its own |
| Text.LowerStrIdempotent | backend/app/rules/matcher.py:134 | lower-casing twice is lower-casing once |
| Text.LowerStrAppend | backend/app/rules/matcher.py:119 | lower-casing distributes over concatenation |
| Text.Strip | backend/app/rules/matcher.py:88 | `str.strip`: the result neither starts nor ends with whitespace |
| Text.StripSpec | backend/app/rules/matcher.py:88 | the result is the slice left after removing exactly the leading and the trailing whitespace |
| Text.StripEmptyIff | backend/app/workers/feed_fetcher.py:140 | stripping leaves nothing exactly when the string is all whitespace |
| Text.StripOfStripped | backend/app/rules/matcher.py:88 | stripping an already stripped string changes nothing |
| Text.StripLower | backend/app/rules/matcher.py:88 | stripping and lower-casing commute |
| Text.Split | backend/app/rules/matcher.py:87 | `str.split(',')`: at least one piece, and no piece contains the separator |
| Text.SplitJoin | backend/app/rules/matcher.py:87 | joining the pieces with the separator gives the string back |
| Text.JoinSplit | backend/app/rules/matcher.py:87 | splitting a join of separator-free pieces gives the pieces back |
| Text.SplitLower | backend/app/rules/matcher.py:87 | splitting on a non-letter commutes with lower-casing |
| Text.JoinLower | backend/app/rules/matcher.py:119 | joining commutes with lower-casing |
| Text.ContainsIff | backend/app/rules/matcher.py:134 | `k in t` holds exactly when `k` occurs in `t` at some position |
| Text.ContainsAppend | backend/app/rules/matcher.py:119 | a substring of either half is a substring of the concatenation |
| Text.ContainsInEmpty | backend/app/rules/matcher.py:134 | only the empty keyword occurs in the empty text |
| Text.LexLeTotal | backend/app/services/collection_feeds.py:143 | any two strings are ordered one way or the other |
| Text.LexLeTransitive | backend/app/services/collection_feeds.py:143 | string order is transitive |
| Text.LexLeAntisymmetric | backend/app/services/collection_feeds.py:143 | strings ordered both ways are equal |
| Text.PrefixFirst | backend/app/services/collection_feeds.py:143 | a string sorts no later than any of its extensions |
| ArticleKey.ComputeDedupKey | backend/app/models/article.py:23-28 | the digest of the guid when it is non-empty; otherwise of the url when that is non-empty; otherwise the `ValueError` |
| ArticleKey.UrlIgnoredWithGuid | backend/app/models/article.py:25 | when the guid is used, the url plays no part in the key |
| ArticleKey.SameSourceSameKey | backend/app/models/article.py:28 | the key depends only on the chosen source string: a guid and a url with the same text give the same key, and an empty guid falls back to the url |
| ArticleKey.WithDedupKey | backend/app/models/article.py:67-76 | the listeners succeed exactly when a key can be computed, and then only the key field changes, to the recomputed key |
| ArticleKey.DedupKeyStable | backend/app/models/article.py:73-76 | writing a row again keeps its key, and editing a field other than guid and url never changes it |
| ArticleKey.FeedKeys | backend/app/workers/feed_fetcher.py:120-132 | the keys stored for a feed: exactly the keys of that feed's rows |
| ArticleKey.FeedKeysInsert | backend/app/models/article.py:35-40 | a new row adds its key to its own feed's keys and to no other feed's |
| ArticleKey.SameGuidAcrossFeeds | backend/app/models/article.py:35-40 | two rows with the same key in different feeds satisfy the per-feed unique constraint |
| FeedUrl.NormalizeNetloc | backend/app/models/feed.py:23-26 | `:80` is dropped for http and `:443` for https, and any other port stays |
| FeedUrl.NormalizePath | backend/app/models/feed.py:28-30 | one trailing slash is dropped unless the path is `/`, and any other path is kept |
| FeedUrl.OneSlashOnly | backend/app/models/feed.py:29-30 | a path ending in two slashes keeps one of them |
| FeedUrl.NormalizeUrl | backend/app/models/feed.py:14-32 | the stripped input when the parse has no scheme or no netloc; otherwise the lower-cased scheme, the port-normalised lower-cased netloc, the normalised path and the query, with params and fragment dropped |
| FeedUrl.CaseAndFragmentIgnored | backend/app/models/feed.py:21-32 | inputs that differ only in scheme/netloc case and in params and fragment normalise to the same URL |
| FeedUrl.PartsIdempotent | backend/app/models/feed.py:23-30 | normalising netloc and path again changes nothing, unless a default port or a trailing slash was doubled |
| FeedUrl.OtherSchemesPortKept | backend/app/models/feed.py:23-26 | `:80` goes only for http and `:443` only for https, and each survives under the other scheme |
| FeedFetcher.EntryGuid | backend/app/workers/feed_fetcher.py:111 | the entry's `id` when non-empty, else its `guid` |
| FeedFetcher.Candidates | backend/app/workers/feed_fetcher.py:109-118 | an entry is a candidate, paired with its key, exactly when a key can be computed for it |
| FeedFetcher.NoGuidNoLinkSkipped | backend/app/workers/feed_fetcher.py:111-117 | an entry with neither id, guid nor link is never a candidate |
| FeedFetcher.CollectCandidates | backend/app/workers/feed_fetcher.py:109-118 | the loop's list is the candidates, and its skip count is the number of entries without a key |
| FeedFetcher.KeysOf | backend/app/workers/feed_fetcher.py:120 | `candidate_keys`: the keys of the candidates |
| FeedFetcher.Fresh | backend/app/workers/feed_fetcher.py:134-158 | never more fresh candidates than candidates, and each fresh one is one of the candidates; the keep-unless-seen order is its definition, which `FreshKeysDistinct` and `FreshCovers` characterise |
| FeedFetcher.FreshKeysDistinct | backend/app/workers/feed_fetcher.py:134-158 | no fresh key is an existing one, and no two fresh candidates share a key |
| FeedFetcher.FreshCovers | backend/app/workers/feed_fetcher.py:134-158 | every candidate's key is existing or among the fresh keys |
| FeedFetcher.NothingFresh | backend/app/workers/feed_fetcher.py:137-139 | when every candidate key already exists, nothing is fresh |
| FeedFetcher.AddFresh | backend/app/workers/feed_fetcher.py:134-158 | the loop adds one article per fresh candidate, in order; it counts them as created and counts the other candidates as skipped |
| FeedFetcher.EntryTitle | backend/app/workers/feed_fetcher.py:140 | the stripped title, or "Untitled" when it is missing or blank, never empty |
| FeedFetcher.ArticleFrom | backend/app/workers/feed_fetcher.py:141-155 | the stored article carries the feed, the key, the title, the link and the guid; the summary falls back to the description and the publication time to the update time |
| FeedFetcher.ListenerAgrees | backend/app/models/article.py:67-70 | the insert listener recomputes the key the fetcher already used, so it leaves the row as it is |
| FeedFetcher.NewArticles | backend/app/workers/feed_fetcher.py:146-156 | one article per fresh candidate |
| FeedFetcher.NewArticlesRows | backend/app/workers/feed_fetcher.py:146-156 | the i-th new article is the one built from the i-th fresh candidate |
| FeedFetcher.InsertAll | backend/app/workers/feed_fetcher.py:167-168 | the commit keeps the table well formed and advances the id counter by the number of new rows |
| FeedFetcher.InsertAllRows | backend/app/workers/feed_fetcher.py:167-168 | the commit keeps every old row and puts the i-th new row at the i-th new id |
| FeedFetcher.StoredKeys | backend/app/workers/feed_fetcher.py:156-168 | after the commit the feed's keys are its old keys plus the stored ones |
| FeedFetcher.ToStore | backend/app/workers/feed_fetcher.py:120-158 | only candidates are stored, at most one per candidate |
| FeedFetcher.Outcome | backend/app/workers/feed_fetcher.py:104-183 | fetched is the number of entries, created is the number stored, created + skipped == fetched, and every entry without a key is skipped |
| FeedFetcher.CreatedKeysNew | backend/app/workers/feed_fetcher.py:120-158 | no created key equals an old key of the feed or another created key |
| FeedFetcher.InsertsKeepUnique | backend/app/models/article.py:35-40 | inserting rows of one feed whose keys are new and distinct keeps (feed, key) unique |
| FeedFetcher.CommitKeepsUnique | backend/app/workers/feed_fetcher.py:167-168 | the commit never violates the (feed, key) constraint, and it adds exactly the created keys to the feed |
| FeedFetcher.RerunCreatesNothing | backend/app/workers/feed_fetcher.py:120-158 | fetching the same entries again, after the first fetch's keys are stored, creates nothing |
| FeedFetcher.FailedFeed | backend/app/workers/feed_fetcher.py:63-68 | on failure the failure count goes up by exactly one and nothing else about the feed changes |
| FeedFetcher.FetchedFeed | backend/app/workers/feed_fetcher.py:160-165 | on success: fetched now, failure count 0, and the new ETag/Last-Modified when sent, the old ones otherwise; nothing else changes |
| FeedFetcher.StoreEntries | backend/app/workers/feed_fetcher.py:104-183 | the parsed branch reports `Outcome` and inserts exactly the new articles; the feed's keys grow by the stored ones, and the feed row is updated as `FetchedFeed` says |
| FeedFetcher.FetchFeedArticles | backend/app/workers/feed_fetcher.py:85-183 | an unknown feed is an error that changes nothing; a failed request or parse stores no article, counts one failure and returns the source's message; a parsed feed is stored as `StoreEntries` says |
| Matcher.StripAll | backend/app/rules/matcher.py:88 | every token, stripped, in order |
| Matcher.KeepStripped | backend/app/rules/matcher.py:87-91 | the kept tokens are exactly the non-empty stripped tokens, each with no surrounding whitespace |
| Matcher.ParseKeywords | backend/app/rules/matcher.py:63-91 | `None` or "" gives no keywords; otherwise exactly the non-empty stripped comma-separated tokens, each clean |
| Matcher.KeepStrippedIsFilter | backend/app/rules/matcher.py:86-91 | the kept tokens are the stripped tokens with the empty ones removed, in their order and with their repetitions |
| Matcher.ParseKeywordsInOrder | backend/app/rules/matcher.py:83-91 | a non-empty string parses to the list the loop appends: each comma-separated token stripped, in order, empty ones left out |
| Matcher.ParseDocExample | backend/app/rules/matcher.py:73-76 | the documented example: `"  python  ,,  rust  "` parses to `["python", "rust"]` |
| Matcher.ParseJoinedKeywords | backend/app/rules/matcher.py:83-91 | parsing clean keywords written back comma-separated gives the same list |
| Matcher.ParseKeywordsLower | backend/app/rules/matcher.py:83-91 | parsing commutes with lower-casing the keyword string |
| Matcher.BlankPiecesDropped | backend/app/rules/matcher.py:89-90 | tokens made only of whitespace are all dropped |
| Matcher.Parts | backend/app/rules/matcher.py:106-116 | only non-empty fields take part, and there are none exactly when all three are empty |
| Matcher.SearchableText | backend/app/rules/matcher.py:94-119 | the text is lower-case, contains each non-empty field lower-cased, and is empty exactly when every field is |
| Matcher.PartsJoinFacts | backend/app/rules/matcher.py:119 | joining then lower-casing equals lower-casing each part then joining, and contains every part |
| Matcher.SearchableTextCase | backend/app/rules/matcher.py:119 | articles whose fields agree up to case have the same search text |
| Matcher.AnyKeywordMatches | backend/app/rules/matcher.py:122-136 | true exactly when some keyword, lower-cased, is a substring of the text |
| Matcher.AnyKeywordMatchesLower | backend/app/rules/matcher.py:134 | lower-casing the keywords beforehand changes nothing |
| Matcher.MatchesRule | backend/app/rules/matcher.py:139-186 | no exclude keyword occurs, and either there are no include keywords or some include keyword occurs |
| Matcher.ExcludeWins | backend/app/rules/matcher.py:177-179 | an exclude hit rejects the article whatever the include keywords are |
| Matcher.EmptyIncludeMatchesAll | backend/app/rules/matcher.py:181-183 | without include keywords an article matches exactly when no exclude keyword occurs |
| Matcher.IncludeAnyOf | backend/app/rules/matcher.py:185-186 | with include keywords and no exclude hit, the article matches exactly when some include keyword occurs |
| Matcher.MatchIgnoresArticleCase | backend/app/rules/matcher.py:119 | the letter case of the article's fields never matters |
| Matcher.MatchIgnoresKeywordCase | backend/app/rules/matcher.py:134 | the letter case of the rule's keywords never matters |
| Matcher.EmptyArticle | backend/tests/test_rule_matcher.py:303-315 | an article with no text matches exactly the rules without include keywords |
| Matcher.SingleKeyword | backend/app/rules/matcher.py:83-91 | one clean keyword parses to itself alone |
| Matcher.IncludeHit | backend/app/rules/matcher.py:185-186 | one include keyword that occurs makes the article match |
| Matcher.ExcludeHit | backend/app/rules/matcher.py:177-179 | one exclude keyword that occurs rejects the article |
| Matcher.TitleOnlyText | backend/app/rules/matcher.py:106-119 | the text of a title-only article is the lower-cased title |
| Matcher.TitleSummaryText | backend/app/rules/matcher.py:106-119 | title and summary are joined by one space |
| Matcher.SubstringMatchCase | backend/tests/test_rule_matcher.py:353-363 | matching is by substring, not by word: "py" matches "Python" |
| Matcher.JoinedFieldsCase | backend/app/rules/matcher.py:119 | a keyword containing a space can span the title and the summary |
| Matcher.ExcludeWinsCase | backend/tests/test_rule_matcher.py:179-187 | the rule "go" / "spam" rejects the article titled "Go spam" |
| RuleRunner.ScopeCollections | backend/app/workers/rule_runner.py:94-107 | a scoped rule draws from its own collection; an unscoped one from every collection its owner owns |
| RuleRunner.CandidateFeeds | backend/app/workers/rule_runner.py:94-107 | exactly the feeds linked into a scope collection |
| RuleRunner.CandidateArticles | backend/app/workers/rule_runner.py:75-117 | exactly the articles of the candidate feeds, each once, in id order |
| RuleRunner.UnscopedIsolation | backend/app/workers/rule_runner.py:99-107 | an unscoped rule never sees an article whose feed is linked only into other users' collections |
| RuleRunner.NoLinksNoCandidates | backend/app/workers/rule_runner.py:111-112 | with no links there are no candidates |
| RuleRunner.MatchedArticles | backend/app/workers/rule_runner.py:184-187 | exactly the candidates the matcher accepts, each once |
| RuleRunner.CollectMatched | backend/app/workers/rule_runner.py:184-187 | the matching loop computes `MatchedArticles` |
| RuleRunner.ExistingMatchIds | backend/app/workers/rule_runner.py:120-145 | exactly those of the given articles for which this rule already has a match row |
| RuleRunner.FreshArticles | backend/app/workers/rule_runner.py:206-216 | exactly the matched articles without a match row |
| RuleRunner.SkippedArticles | backend/app/workers/rule_runner.py:206-208 | exactly the matched articles with a match row |
| RuleRunner.CreatedPlusSkipped | backend/app/workers/rule_runner.py:195-216 | every matched article is counted once, so matched == created + skipped |
| RuleRunner.MatchRows | backend/app/workers/rule_runner.py:210-216 | one row per created article, for this rule, stamped with the run's time |
| RuleRunner.PlanRun | backend/app/workers/rule_runner.py:177-216 | candidates, matched, created and skipped, each exactly as the source selects them, with matched == created + skipped |
| RuleRunner.NewRowsUnique | backend/app/models/rule_match.py:42-47 | appending rows for new, distinct articles keeps (rule, article) unique |
| RuleRunner.InsertMatches | backend/app/workers/rule_runner.py:195-216 | the insertion loop appends exactly the rows of the fresh articles; it counts them as created and counts the rest as skipped |
| RuleRunner.RunRule | backend/app/workers/rule_runner.py:148-241 | an unknown rule is an error that changes nothing; otherwise the plan's rows are appended, only this rule's last run time changes, to the run's time, and the plan's counts are returned |
| RuleRunner.RerunCreatesNothing | backend/app/workers/rule_runner.py:198-216 | a second run over unchanged articles creates nothing and skips every match |
| RuleRunner.RunLeavesAllMatched | backend/app/workers/rule_runner.py:198-216 | after a run, every article the rule matches has a match row |
| RuleRunner.HasMatchExtend | backend/app/workers/rule_runner.py:214 | rows are only appended, so a recorded match stays recorded |
| RuleRunner.MatchedIgnoresRows | backend/app/workers/rule_runner.py:177-187 | which articles match does not depend on the existing match rows |
| RuleRunner.PlanIgnoresLastRun | backend/app/workers/rule_runner.py:177-216 | the rule's last run time has no influence on what a run does |
| RuleRunner.OnlyNewArticlesCreated | backend/tests/test_rule_runner.py:271-302 | after a run, adding articles and running again creates rows only for the added ones |
| RuleScheduler.SchedulableIds | backend/app/workers/rule_scheduler.py:96 | exactly the active rules with a positive interval, in id order |
| RuleScheduler.DueAmong | backend/app/workers/rule_scheduler.py:99-102 | exactly the given ids whose interval has elapsed |
| RuleScheduler.DueAmongIncreasing | backend/app/workers/rule_scheduler.py:99-102 | filtering keeps id order |
| RuleScheduler.FilterDue | backend/app/workers/rule_scheduler.py:99-102 | the filtering loop computes `DueAmong` |
| RuleScheduler.DueRuleIds | backend/app/workers/rule_scheduler.py:67-138 | exactly the due rules, each once, in id order |
| RuleScheduler.GetDueRules | backend/app/workers/rule_scheduler.py:67-109 | `get_due_rules` returns `DueRuleIds` |
| RuleScheduler.IsRuleDue | backend/app/workers/rule_scheduler.py:112-138 | `_is_rule_due`: never run, or the elapsed time since the last run is at least the interval (inclusive) |
| RuleScheduler.Due | backend/app/workers/rule_scheduler.py:96-138 | the query condition (active, positive interval) together with `_is_rule_due` |
| RuleScheduler.DueBoundaryInclusive | backend/app/workers/rule_scheduler.py:135-138 | exactly one interval after the last run the rule is due, and one microsecond earlier it is not |
| RuleScheduler.NeverRunIsDue | backend/app/workers/rule_scheduler.py:123-124 | an active rule with a positive interval that never ran is due |
| RuleScheduler.UnschedulableNeverDue | backend/app/workers/rule_scheduler.py:96 | an inactive rule, or one with a non-positive interval, is never due |
| RuleScheduler.DueStaysDue | backend/app/workers/rule_scheduler.py:135-138 | once due, a rule stays due as time passes |
| RuleScheduler.NotDueRightAfterRun | backend/app/workers/rule_scheduler.py:135-138 | a rule that just ran is not due again before a full interval |
| RuleScheduler.CountIn | backend/app/workers/rule_scheduler.py:183-189 | the failures are at most the due rules |
| RuleScheduler.RunNext | backend/app/workers/rule_scheduler.py:174-189 | one turn of the loop: the run fails exactly for a failing rule, and the progress invariant extends by one rule |
| RuleScheduler.RunDueRules | backend/app/workers/rule_scheduler.py:141-204 | reports the due rules and counts runs and failures, with run + failures == due. Only the due rules that did not fail get a new last run time (the time their run read). Every appended match row is for an article its rule matches, stamped with that rule's run time, and each rule that ran has a row for everything it matches |
| RuleScheduler.FailedRuleStaysDue | backend/app/workers/rule_scheduler.py:183-189 | a rule whose run failed keeps its row, hence stays due |
| RuleScheduler.NotDueUntouched | backend/app/workers/rule_scheduler.py:99-102 | a rule that was not due is unchanged and gets no match rows |
| ArticleStateService.StateOf | backend/app/services/article_state.py:65-77 | the user's row for the article, or the default unread/unsaved state |
| ArticleStateService.GetArticleOr404 | backend/app/services/article_state.py:26-47 | the article when it exists, otherwise 404 "Article not found." |
| ArticleStateService.MarkReadState | backend/app/services/article_state.py:100-103 | read afterwards; the read time is taken only on the unread-to-read transition; the saved half is untouched |
| ArticleStateService.MarkUnreadState | backend/app/services/article_state.py:130-131 | unread with no read time; the saved half is untouched |
| ArticleStateService.MarkSavedState | backend/app/services/article_state.py:158-161 | saved afterwards; the save time is taken only on the unsaved-to-saved transition; the read half is untouched |
| ArticleStateService.MarkUnsavedState | backend/app/services/article_state.py:188-189 | unsaved with no save time; the read half is untouched |
| ArticleStateService.MarkReadIdempotent | backend/app/services/article_state.py:84 | marking read again keeps the first read time |
| ArticleStateService.MarkUnreadIdempotent | backend/app/services/article_state.py:114 | marking unread twice is marking it once |
| ArticleStateService.MarkSavedIdempotent | backend/app/services/article_state.py:142 | saving again keeps the first save time |
| ArticleStateService.MarkUnsavedIdempotent | backend/app/services/article_state.py:172 | unsaving twice is unsaving once |
| ArticleStateService.TransitionsKeepConsistency | backend/app/services/article_state.py:6-10 | every transition keeps "a timestamp is present exactly when its flag is set" |
| ArticleStateService.ReadAndSaveCommute | backend/app/services/article_state.py:98-165 | read operations and save operations commute |
| ArticleStateService.ReadUnreadRoundTrip | backend/app/services/article_state.py:100-131 | unread then read takes a new read time, and read then unread is just unread |
| ArticleStateService.OtherStatesUntouched | backend/app/services/article_state.py:65-70 | writing one (user, article) row leaves every other pair's state as it was |
| ArticleStateService.GetOrCreateState | backend/app/services/article_state.py:50-77 | returns the existing row or the default, which is then stored |
| ArticleStateService.MarkRead | backend/app/services/article_state.py:80-107 | a missing article is 404 with no row created; otherwise the row becomes `MarkReadState` of the old state and is returned |
| ArticleStateService.MarkUnread | backend/app/services/article_state.py:110-135 | 404 as above; otherwise the row becomes `MarkUnreadState` of the old state |
| ArticleStateService.MarkSaved | backend/app/services/article_state.py:138-165 | 404 as above; otherwise the row becomes `MarkSavedState` of the old state |
| ArticleStateService.MarkUnsaved | backend/app/services/article_state.py:168-193 | 404 as above; otherwise the row becomes `MarkUnsavedState` of the old state |
| CollectionArticles.PassesStateFilter | backend/app/services/collection_articles.py:146-195 | the state condition per branch: none without filters; saved-only via the inner join (a row that is saved); otherwise the outer join, where a missing row is unread and not saved |
| CollectionArticles.StateFilterMeaning | backend/app/services/collection_articles.py:124-197 | for every flag combination the query keeps an article exactly when: it is unread (no row, or not read) if asked, and saved (a row that is saved) if asked |
| CollectionArticles.SelectedIds | backend/app/services/collection_articles.py:83-102 | exactly the articles of linked feeds that pass the state filter, each once |
| CollectionArticles.NoFilterIsLinkedArticles | backend/app/services/collection_articles.py:98-102 | without filters the selection is every article of every linked feed |
| CollectionArticles.ListedBefore | backend/app/services/collection_articles.py:110-114 | the listing order: publication time descending with undated articles last, then creation time descending |
| CollectionArticles.ByRecencyOrders | backend/app/services/collection_articles.py:110-114 | the listing order is total and transitive |
| CollectionArticles.NullsLast | backend/app/services/collection_articles.py:112 | once an undated article is listed, every later one is undated too |
| CollectionArticles.Ordered | backend/app/services/collection_articles.py:104-114 | exactly the selected articles, each once, ordered newest published first (nulls last), then newest created first |
| CollectionArticles.Page | backend/app/services/collection_articles.py:115-116 | `LIMIT`/`OFFSET`: the elements from offset on, at most limit of them |
| CollectionArticles.PagesAdjoin | backend/app/services/collection_articles.py:115-116 | two consecutive pages are the double page, with no gap and no overlap |
| CollectionArticles.ListCollectionArticles | backend/app/services/collection_articles.py:18-121 | 404 exactly when the user does not own the collection; otherwise the page of the ordered selection and the total count of the selection |
| CollectionArticles.ListedItemsSelected | backend/app/services/collection_articles.py:18-121 | every listed item is an existing article of a linked feed passing the filters, and the items are in listing order |
| CollectionArticles.OnlyRequesterStateMatters | backend/app/services/collection_articles.py:155-174 | state tables that agree on the requester's rows give the same result |
| CollectionArticles.TotalIgnoresPaging | backend/app/services/collection_articles.py:104-106 | the total does not depend on limit and offset |
| CollectionFeeds.AssignFeed | backend/app/services/collection_feeds.py:16-74 | 404 for a collection the user does not own, then for a missing feed; otherwise the link is present, and the flag says whether it was added |
| CollectionFeeds.UnassignFeed | backend/app/services/collection_feeds.py:77-113 | the same two 404s; otherwise the link is absent afterwards, whether or not it was there |
| CollectionFeeds.LinkRoundTrips | backend/app/services/collection_feeds.py:44-113 | unassign undoes a first assign, and repeating either operation changes nothing |
| CollectionFeeds.ByTitleOrders | backend/app/services/collection_feeds.py:143 | title order is total and transitive |
| CollectionFeeds.LinkedFeedIds | backend/app/services/collection_feeds.py:138-142 | exactly the existing feeds linked into the collection, each once |
| CollectionFeeds.ListCollectionFeeds | backend/app/services/collection_feeds.py:116-149 | 404 exactly when the user does not own the collection; otherwise exactly its linked feeds, each once, by title ascending |
| Collections.GetCollectionForUser | backend/app/services/collections.py:14-26 | the row exactly when it exists and the user owns it |
| Collections.GetCollection | backend/app/services/collections.py:113-133 | the row when the user owns it; otherwise 404, for a missing row and another user's row alike |
| Collections.NameTaken | backend/app/services/collections.py:44-52 | another collection of the same owner, other than the excluded one, already has the name |
| Collections.EnsureUniqueName | backend/app/services/collections.py:29-58 | 409 exactly when another of the owner's collections, other than the excluded one, has the name |
| Collections.UniqueNameKeepsInvariant | backend/app/services/collections.py:29-58 | storing a collection whose name passed the check keeps names unique per owner |
| Collections.OwnNameNotTaken | backend/app/services/collections.py:51-52 | a collection's own name never conflicts with itself on update |
| Collections.OtherOwnersDoNotConflict | backend/app/services/collections.py:47-50 | another user's collections never make a name taken |
| Collections.CreateCollection | backend/app/services/collections.py:61-89 | 409 with no change when the name is taken; otherwise the new row is inserted under the next id |
| Collections.CreatedIsFound | backend/app/services/collections.py:81-89 | a created collection is found again by its owner |
| Collections.ByCreatedOrders | backend/app/services/collections.py:106 | creation-time order is total and transitive |
| Collections.OwnedIds | backend/app/services/collections.py:104-105 | exactly the user's collection ids, each once |
| Collections.ListCollections | backend/app/services/collections.py:92-110 | exactly the user's collections, each once, earliest created first |
| Collections.PatchName | backend/app/services/collections.py:159 | a new name only when the field was sent and is not null |
| Collections.ApplyCollectionPatch | backend/app/services/collections.py:157-169 | the name changes only to a sent non-null name; the description changes whenever sent, to null too; owner and creation time stay |
| Collections.PatchLaws | backend/app/services/collections.py:157-169 | an empty patch, or a null name alone, changes nothing, and applying a patch twice is applying it once |
| Collections.UpdateCollection | backend/app/services/collections.py:136-173 | 404 for another user's or a missing collection; 409 when a sent name is taken by another collection of the owner; otherwise the patched row replaces the old one |
| Collections.DeleteCollection | backend/app/services/collections.py:176-197 | 404 as in get; otherwise the row is removed and returned |
| Collections.DeletedIsNotFound | backend/app/services/collections.py:194-197 | after a delete the collection is 404 for everyone, and every other collection reads as before |
| RuleService.GetRuleForUser | backend/app/services/rules.py:18-43 | the row exactly when it exists and the user owns it |
| RuleService.GetRule | backend/app/services/rules.py:95-115 | the row when the user owns it; otherwise 404 "Rule not found." |
| RuleService.DefaultCreate | backend/app/schemas/rules.py:30-35 | the payload defaults: no keywords, no scope, active |
| RuleService.NewRule | backend/app/services/rules.py:61-69 | the stored row carries the payload's fields and the owner, and has never run |
| RuleService.CreateRule | backend/app/services/rules.py:46-73 | the new row is inserted under the next id and returned |
| RuleService.CreatedRuleFound | backend/app/services/rules.py:61-73 | a rule created with the defaults is found by its owner, is active, and has never run |
| RuleService.RuleByCreatedOrders | backend/app/services/rules.py:88 | creation-time order is total and transitive |
| RuleService.OwnedRuleIds | backend/app/services/rules.py:88 | exactly the user's rule ids, each once |
| RuleService.ListRules | backend/app/services/rules.py:76-92 | exactly the user's rules, each once, earliest created first |
| RuleService.Sent | backend/app/services/rules.py:143-159 | a not-null field takes the sent value only when it is sent and non-null |
| RuleService.SentNullable | backend/app/services/rules.py:149-156 | a nullable field takes the sent value whenever it is sent, null included |
| RuleService.ApplyRulePatch | backend/app/services/rules.py:141-159 | each field follows its rule (`Sent` or `SentNullable`), and owner, creation time and last run time never change |
| RuleService.RulePatchLaws | backend/app/services/rules.py:141-159 | an empty patch changes nothing, a patch applied twice is applied once, and the last run time is kept |
| RuleService.NullFieldsDiffer | backend/app/services/rules.py:143-150 | a sent null clears the keywords but leaves the name as it was |
| RuleService.PatchRule | backend/app/services/rules.py:143-159 | the six field assignments compute `ApplyRulePatch` |
| RuleService.UpdateRule | backend/app/services/rules.py:118-163 | 404 with no change for another user's or a missing rule; otherwise the patched row replaces the old one and is returned |
| RuleService.DeleteRule | backend/app/services/rules.py:166-190 | 404 as in get; otherwise the row is removed and returned, and the match rows are left alone |
| RuleService.DeletedRuleNotFound | backend/app/services/rules.py:187-190 | after a delete the rule is 404 for everyone, and every other rule reads as before |

## Left out

- Networking, feed parsing and date parsing are not modelled. This covers:
  - `httpx.get`, the status check, `feedparser.parse` and its `bozo` flag;
  - `_parse_entry_datetime`, `_parse_http_datetime` and `_extract_entry_content`.

  Their outcome is the `Fetch` value given to `FeedFetcher.FetchFeedArticles`. Its
  entries already carry converted timestamps and the first content value.
- `backend/app/services/feeds.py` is not part of this model. It holds feed creation
  and the fetching and parsing wrappers.
- SHA-256 is a function parameter. Only the choice of the string it hashes is
  modelled.
- `urlparse` and `urlunparse` are not modelled. The parse is the parameter of
  `FeedUrl.NormalizeUrl`. Reassembly is written out only for the case the code
  reaches, where a netloc is present.
- FeedFetcher.StoreEntries: the commit is one `InsertAll` of the pending articles. The
  listener's recomputation is shown to agree with the key already used
  (`FeedFetcher.ListenerAgrees`), so it is not run again.
- The database session is not modelled: flush, refresh and the commit boundaries
  within one call. Each service call is one atomic change of the `Database` fields.
- The `IntegrityError` recovery in `assign_feed_to_collection`
  (`collection_feeds.py:56-72`) needs a concurrent insert, which a sequential model
  cannot produce.
- RuleScheduler.RunDueRules: a failing run is assumed to change nothing. A run fails
  when its id is in the parameter `failing`.
  - The source's docstring (lines 32-34) relies on this.
  - Its `except` branch (lines 183-189) performs no rollback, so this is an
    assumption, not a proved fact.
- RuleRunner.RunRule uses one time for the match rows and for `last_run_at`. The
  source reads the clock separately for each.
- The logging and the elapsed-time report of `run_due_rules` are not modelled.
- RuleRunner.RunRule: the error carries the rule id. The message text of
  `RuleNotFoundError` is not modelled.
- `_is_rule_due` converts naive timestamps to UTC (lines 127-133). The model uses one
  integer time base, so this step disappears.
- Python's `str.lower` and `str.strip` are modelled on ASCII. The whitespace set is
  the ASCII characters Python treats as whitespace.
- The `created_at` and `updated_at` server defaults are not modelled. Creation times
  are given by the caller, and `updated_at` is not modelled at all.
- Result order:
  - Rows come back in ascending id order before sorting.
  - The `ORDER BY` sorts are stable over that order.
  - The source leaves ties unspecified; the model fixes one valid order.
- Feed titles are compared in code-point order. The database's collation is not
  modelled.
- Database backend. No foreign key declares `ondelete`, so what a delete does depends
  on the database:
  - The model follows the SQLite test database, which does not enforce foreign keys,
    for deletes: a deleted collection keeps its links and the rules scoped to it, and
    a deleted rule keeps its match rows.
  - On PostgreSQL, which `backend/app/models/rule.py:36` names beside SQLite (the
    test database),
    `delete_collection` of a collection with links or a scoping rule, and
    `delete_rule` of a rule with match rows, fail at commit with an `IntegrityError`
    and delete nothing. The model does not capture this failure.
- Base.Table.Insert: ids come from a counter and a deleted id is never handed out
  again, as with a PostgreSQL sequence. SQLite without `AUTOINCREMENT` reuses the id
  of a deleted highest-id row, so a new rule can inherit the orphaned match rows of a
  deleted rule, and its first run then skips those articles. The model does not
  capture this reuse.
- Request validation is not modelled:
  - name `min_length`;
  - `frequency_minutes > 0`;
  - the 1..100 bound on `limit`.

  The model accepts any value. `Due` still requires a positive interval, as the
  query does.
- Integer widths are not modelled, because every count and id in the source is a
  Python integer.

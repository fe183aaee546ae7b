/** The in-memory database: every table the services and workers touch, as a
    field of one object, with the integrity constraints the schema and the
    services maintain. */
module Store {
  import opened Base
  import opened Models

  /** At most one match row per (rule, article): the unique constraint of `rule_matches`. */
  predicate UniqueMatchKeys(ms: seq<RuleMatch>) {
    forall i, j :: 0 <= i < j < |ms| ==> ms[i].ruleId != ms[j].ruleId || ms[i].articleId != ms[j].articleId
  }

  /** A timestamp is present exactly when its flag is set. */
  predicate StateConsistent(s: ArticleState) {
    (s.isRead <==> s.readAt.Some?) && (s.isSaved <==> s.savedAt.Some?)
  }

  predicate StatesConsistent(states: map<(UserId, ArticleId), ArticleState>) {
    forall k :: k in states ==> StateConsistent(states[k])
  }

  /** No user owns two collections with the same name. */
  predicate UniqueCollectionNames(cs: map<CollectionId, Collection>) {
    forall a, b :: a in cs && b in cs && a != b && cs[a].userId == cs[b].userId ==> cs[a].name != cs[b].name
  }

  /** No feed holds two articles with the same dedup key: the unique
      constraint on (`feed_id`, `dedup_key`). */
  predicate UniqueDedupKeys(arts: map<ArticleId, Article>) {
    forall a, b :: a in arts && b in arts && a != b && arts[a].feedId == arts[b].feedId ==>
      arts[a].dedupKey != arts[b].dedupKey
  }

  class Database {
    var feeds: Table<Feed>
    var articles: Table<Article>
    var collections: Table<Collection>
    var links: set<Link>
    var rules: Table<Rule>
    var matches: seq<RuleMatch>
    var states: map<(UserId, ArticleId), ArticleState>

    ghost predicate Valid()
      reads this
    {
      feeds.WellFormed() && articles.WellFormed() && collections.WellFormed() && rules.WellFormed()
      && UniqueMatchKeys(matches)
      && StatesConsistent(states)
      && UniqueCollectionNames(collections.rows)
      && UniqueDedupKeys(articles.rows)
    }

    /** An empty database. */
    constructor ()
      ensures Valid()
      ensures feeds.rows == map[] && articles.rows == map[] && collections.rows == map[] && rules.rows == map[]
      ensures links == {} && matches == [] && states == map[]
    {
      feeds := Table(map[], 0);
      articles := Table(map[], 0);
      collections := Table(map[], 0);
      links := {};
      rules := Table(map[], 0);
      matches := [];
      states := map[];
    }
  }
}

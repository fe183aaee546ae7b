/** The stored records.  Each table row is keyed by its autoincrement id in a
    `Table`, so the id itself is not repeated inside the record. */
module Models {
  import opened Base

  type UserId = nat
  type FeedId = nat
  type ArticleId = nat
  type CollectionId = nat
  type RuleId = nat

  datatype Feed = Feed(
    url: string,
    title: string,
    siteUrl: Option<string>,
    description: Option<string>,
    etag: Option<string>,
    lastModified: Option<Instant>,
    lastFetchedAt: Option<Instant>,
    failureCount: int,
    createdAt: Instant)

  datatype Article = Article(
    feedId: FeedId,
    title: string,
    url: Option<string>,
    guid: Option<string>,
    publishedAt: Option<Instant>,
    summary: Option<string>,
    content: Option<string>,
    author: Option<string>,
    dedupKey: string,
    createdAt: Instant)

  datatype Collection = Collection(
    userId: UserId,
    name: string,
    description: Option<string>,
    createdAt: Instant)

  /** A collection-feed link; the pair is the primary key. */
  datatype Link = Link(collectionId: CollectionId, feedId: FeedId)

  datatype Rule = Rule(
    userId: UserId,
    name: string,
    includeKeywords: Option<string>,
    excludeKeywords: Option<string>,
    collectionId: Option<CollectionId>,
    frequencyMinutes: int,
    lastRunAt: Option<Instant>,
    isActive: bool,
    createdAt: Instant)

  datatype RuleMatch = RuleMatch(ruleId: RuleId, articleId: ArticleId, matchedAt: Instant)

  /** One user's read/saved flags for one article. */
  datatype ArticleState = ArticleState(
    isRead: bool,
    isSaved: bool,
    readAt: Option<Instant>,
    savedAt: Option<Instant>)

  /** The HTTP errors the services raise: 404 and 409 with their detail text. */
  datatype ServiceError = NotFound(detail: string) | Conflict(detail: string)
}

/** Linking feeds into a user's collections: an idempotent insert and
    delete of (collection, feed) pairs, and the listing of a collection's feeds. */
module CollectionFeeds {
  import opened Base
  import opened Text
  import opened Models
  import opened Store
  import opened Collections

  const FeedNotFound: ServiceError := NotFound("Feed not found.")

  /** `assign_feed_to_collection`: 404 for a collection the user does not
      own, then 404 for a missing feed; otherwise the link is present
      afterwards, and the flag says whether it had to be added. */
  method AssignFeed(db: Database, userId: UserId, collectionId: CollectionId, feedId: FeedId)
    returns (res: Result<(Link, bool), ServiceError>)
    requires db.Valid()
    modifies db`links
    ensures db.Valid()
    ensures !OwnedBy(db.collections.rows, userId, collectionId) ==>
              res == Err(CollectionNotFound) && db.links == old(db.links)
    ensures OwnedBy(db.collections.rows, userId, collectionId) && feedId !in db.feeds.rows ==>
              res == Err(FeedNotFound) && db.links == old(db.links)
    ensures OwnedBy(db.collections.rows, userId, collectionId) && feedId in db.feeds.rows ==>
              var link := Link(collectionId, feedId);
              res == Ok((link, link !in old(db.links))) && db.links == old(db.links) + {link}
  {
    var g := GetCollection(db.collections.rows, userId, collectionId);
    if g.Err? {
      return Err(g.error);
    }
    if feedId !in db.feeds.rows {
      return Err(FeedNotFound);
    }
    var link := Link(collectionId, feedId);
    if link in db.links {
      return Ok((link, false));
    }
    db.links := db.links + {link};
    return Ok((link, true));
  }

  /** `unassign_feed_from_collection`: the same two 404s; otherwise the link
      is absent afterwards, whether or not it was there. */
  method UnassignFeed(db: Database, userId: UserId, collectionId: CollectionId, feedId: FeedId)
    returns (res: Result<(), ServiceError>)
    requires db.Valid()
    modifies db`links
    ensures db.Valid()
    ensures !OwnedBy(db.collections.rows, userId, collectionId) ==>
              res == Err(CollectionNotFound) && db.links == old(db.links)
    ensures OwnedBy(db.collections.rows, userId, collectionId) && feedId !in db.feeds.rows ==>
              res == Err(FeedNotFound) && db.links == old(db.links)
    ensures OwnedBy(db.collections.rows, userId, collectionId) && feedId in db.feeds.rows ==>
              res == Ok(()) && db.links == old(db.links) - {Link(collectionId, feedId)}
  {
    var g := GetCollection(db.collections.rows, userId, collectionId);
    if g.Err? {
      return Err(g.error);
    }
    if feedId !in db.feeds.rows {
      return Err(FeedNotFound);
    }
    var link := Link(collectionId, feedId);
    if link !in db.links {
      return Ok(());
    }
    db.links := db.links - {link};
    return Ok(());
  }

  /** Unassign undoes a first assign; assign after assign, and unassign
      after unassign, change nothing. */
  lemma LinkRoundTrips(links: set<Link>, link: Link)
    ensures link !in links ==> (links + {link}) - {link} == links
    ensures (links + {link}) + {link} == links + {link}
    ensures (links - {link}) - {link} == links - {link}
    ensures link !in links ==> links - {link} == links
  {
  }

  const ByTitle := (p: (FeedId, Feed), q: (FeedId, Feed)) => LexLe(p.1.title, q.1.title)

  lemma ByTitleOrders()
    ensures Total(ByTitle) && Transitive(ByTitle)
  {
    forall p: (FeedId, Feed), q: (FeedId, Feed) ensures ByTitle(p, q) || ByTitle(q, p) {
      LexLeTotal(p.1.title, q.1.title);
    }
    forall p: (FeedId, Feed), q: (FeedId, Feed), s: (FeedId, Feed) | ByTitle(p, q) && ByTitle(q, s)
      ensures ByTitle(p, s)
    {
      LexLeTransitive(p.1.title, q.1.title, s.1.title);
    }
  }

  /** Ids of the existing feeds linked into the collection, ascending. */
  function LinkedFeedIds(feeds: Table<Feed>, links: set<Link>, collectionId: CollectionId): (r: seq<FeedId>)
    requires feeds.WellFormed()
    ensures forall id :: id in r <==> id in feeds.rows && Link(collectionId, id) in links
    ensures NoDup(r)
  {
    IncreasingNoDup(feeds.Ids());
    Filter(feeds.Ids(), (id: FeedId) => id in feeds.rows && Link(collectionId, id) in links)
  }

  /** `list_collection_feeds`: 404 unless the user owns the collection;
      otherwise exactly its linked feeds, by title ascending. */
  function ListCollectionFeeds(collections: map<CollectionId, Collection>, links: set<Link>, feeds: Table<Feed>,
                               userId: UserId, collectionId: CollectionId): (r: Result<seq<(FeedId, Feed)>, ServiceError>)
    requires feeds.WellFormed()
    ensures r.Err? <==> !OwnedBy(collections, userId, collectionId)
    ensures r.Err? ==> r.error == CollectionNotFound
    ensures r.Ok? ==> forall p :: p in r.value <==>
              p.0 in feeds.rows && p.1 == feeds.rows[p.0] && Link(collectionId, p.0) in links
    ensures r.Ok? ==> NoDup(r.value) && SortedBy(r.value, ByTitle)
  {
    match GetCollection(collections, userId, collectionId)
    case Err(e) => Err(e)
    case Ok(_) =>
      var rows := RowsOf(feeds.rows, LinkedFeedIds(feeds, links, collectionId));
      ByTitleOrders();
      SortByFacts(rows, ByTitle);
      Ok(SortBy(rows, ByTitle))
  }
}

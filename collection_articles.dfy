/** Listing the articles of a collection: the articles of every feed linked
    into it, optionally narrowed by the requesting user's read/saved state,
    newest first, then paginated. */
module CollectionArticles {
  import opened Base
  import opened Models
  import opened Collections

  /** The user has no state row for the article, or one that is not read. */
  predicate Unread(states: map<(UserId, ArticleId), ArticleState>, userId: UserId, articleId: ArticleId) {
    (userId, articleId) !in states || !states[(userId, articleId)].isRead
  }

  /** The user has a state row for the article and it is saved. */
  predicate Saved(states: map<(UserId, ArticleId), ArticleState>, userId: UserId, articleId: ArticleId) {
    (userId, articleId) in states && states[(userId, articleId)].isSaved
  }

  /** The state condition of the query, branch by branch: no join without
      filters; an inner join for saved-only; otherwise an outer join, on
      which a missing row reads as null (so "is saved" fails on it). */
  predicate PassesStateFilter(states: map<(UserId, ArticleId), ArticleState>, userId: UserId, articleId: ArticleId,
                              unreadOnly: bool, savedOnly: bool)
  {
    var key := (userId, articleId);
    if !unreadOnly && !savedOnly then true
    else if savedOnly && !unreadOnly then key in states && states[key].isSaved
    else
      (unreadOnly ==> key !in states || !states[key].isRead)
      && (savedOnly ==> key in states && states[key].isSaved)
  }

  /** Whatever the combination, the filters mean: unread if asked, saved if
      asked; both together keep the intersection. */
  lemma StateFilterMeaning(states: map<(UserId, ArticleId), ArticleState>, userId: UserId, articleId: ArticleId,
                           unreadOnly: bool, savedOnly: bool)
    ensures PassesStateFilter(states, userId, articleId, unreadOnly, savedOnly)
            <==> (unreadOnly ==> Unread(states, userId, articleId)) && (savedOnly ==> Saved(states, userId, articleId))
  {
  }

  /** An article of a feed linked into the collection that passes the state filter. */
  predicate Selected(articles: map<ArticleId, Article>, links: set<Link>, states: map<(UserId, ArticleId), ArticleState>,
                     userId: UserId, collectionId: CollectionId, unreadOnly: bool, savedOnly: bool, id: ArticleId)
  {
    id in articles && Link(collectionId, articles[id].feedId) in links
    && PassesStateFilter(states, userId, id, unreadOnly, savedOnly)
  }

  /** Ids of the selected articles, ascending. */
  function SelectedIds(articles: Table<Article>, links: set<Link>, states: map<(UserId, ArticleId), ArticleState>,
                       userId: UserId, collectionId: CollectionId, unreadOnly: bool, savedOnly: bool): (r: seq<ArticleId>)
    requires articles.WellFormed()
    ensures forall id :: id in r <==> Selected(articles.rows, links, states, userId, collectionId, unreadOnly, savedOnly, id)
    ensures NoDup(r)
  {
    IncreasingNoDup(articles.Ids());
    Filter(articles.Ids(),
           (id: ArticleId) => Selected(articles.rows, links, states, userId, collectionId, unreadOnly, savedOnly, id))
  }

  /** `a` may be listed before `b`: published later first, undated ones
      last, and among equal or missing publication times created later first. */
  predicate ListedBefore(a: Article, b: Article) {
    match (a.publishedAt, b.publishedAt)
    case (Some(pa), Some(pb)) => pa > pb || (pa == pb && a.createdAt >= b.createdAt)
    case (Some(_), None) => true
    case (None, Some(_)) => false
    case (None, None) => a.createdAt >= b.createdAt
  }

  const ByRecency := (p: (ArticleId, Article), q: (ArticleId, Article)) => ListedBefore(p.1, q.1)

  lemma ByRecencyOrders()
    ensures Total(ByRecency) && Transitive(ByRecency)
  {
  }

  /** Nulls last: once an undated article is listed, every later one is undated too. */
  lemma NullsLast(s: seq<(ArticleId, Article)>)
    requires SortedBy(s, ByRecency)
    ensures forall i, j :: 0 <= i < j < |s| && s[i].1.publishedAt.None? ==> s[j].1.publishedAt.None?
  {
    forall i, j | 0 <= i < j < |s| && s[i].1.publishedAt.None? ensures s[j].1.publishedAt.None? {
      assert ByRecency(s[i], s[j]);
    }
  }

  /** All selected articles as (id, row) pairs, in listing order. */
  function Ordered(articles: Table<Article>, links: set<Link>, states: map<(UserId, ArticleId), ArticleState>,
                   userId: UserId, collectionId: CollectionId, unreadOnly: bool, savedOnly: bool)
    : (r: seq<(ArticleId, Article)>)
    requires articles.WellFormed()
    ensures forall p :: p in r <==>
      Selected(articles.rows, links, states, userId, collectionId, unreadOnly, savedOnly, p.0) && p.1 == articles.rows[p.0]
    ensures NoDup(r)
    ensures SortedBy(r, ByRecency)
    ensures |r| == |SelectedIds(articles, links, states, userId, collectionId, unreadOnly, savedOnly)|
  {
    var rows := RowsOf(articles.rows, SelectedIds(articles, links, states, userId, collectionId, unreadOnly, savedOnly));
    ByRecencyOrders();
    SortByFacts(rows, ByRecency);
    SortBy(rows, ByRecency)
  }

  /** SQL `LIMIT limit OFFSET offset` over an ordered result. */
  function Page<T>(s: seq<T>, offset: nat, limit: nat): (r: seq<T>)
    ensures |r| == if offset >= |s| then 0 else Min(limit, |s| - offset)
    ensures forall i :: 0 <= i < |r| ==> r[i] == s[offset + i]
  {
    if offset >= |s| then [] else s[offset..Min(offset + limit, |s|)]
  }

  function Min(a: int, b: int): int {
    if a <= b then a else b
  }

  /** Consecutive pages cover the list without gap or overlap. */
  lemma PagesAdjoin<T>(s: seq<T>, offset: nat, limit: nat)
    ensures Page(s, offset, limit) + Page(s, offset + limit, limit) == Page(s, offset, 2 * limit)
  {
    var a, b, c := Page(s, offset, limit), Page(s, offset + limit, limit), Page(s, offset, 2 * limit);
    assert |a + b| == |c|;
    forall i | 0 <= i < |c| ensures (a + b)[i] == c[i] {
      if i >= |a| {
        assert (a + b)[i] == b[i - |a|];
      }
    }
  }

  /** `list_collection_articles`: 404 unless the user owns the collection;
      otherwise a page of the ordered selection and the size of the whole
      selection. */
  function ListCollectionArticles(collections: map<CollectionId, Collection>, links: set<Link>, articles: Table<Article>,
                                  states: map<(UserId, ArticleId), ArticleState>, userId: UserId,
                                  collectionId: CollectionId, limit: nat, offset: nat, unreadOnly: bool, savedOnly: bool)
    : (r: Result<(seq<(ArticleId, Article)>, nat), ServiceError>)
    requires articles.WellFormed()
    ensures r.Err? <==> !OwnedBy(collections, userId, collectionId)
    ensures r.Err? ==> r.error == CollectionNotFound
    ensures r.Ok? ==>
      var all := Ordered(articles, links, states, userId, collectionId, unreadOnly, savedOnly);
      r.value.1 == |all| && r.value.0 == Page(all, offset, limit)
  {
    match GetCollection(collections, userId, collectionId)
    case Err(e) => Err(e)
    case Ok(_) =>
      var all := Ordered(articles, links, states, userId, collectionId, unreadOnly, savedOnly);
      Ok((Page(all, offset, limit), |all|))
  }

  /** Every listed item is an article of a linked feed that passes the filters,
      and the items come in listing order. */
  lemma ListedItemsSelected(collections: map<CollectionId, Collection>, links: set<Link>, articles: Table<Article>,
                            states: map<(UserId, ArticleId), ArticleState>, userId: UserId,
                            collectionId: CollectionId, limit: nat, offset: nat, unreadOnly: bool, savedOnly: bool)
    requires articles.WellFormed()
    requires OwnedBy(collections, userId, collectionId)
    ensures var items := ListCollectionArticles(collections, links, articles, states, userId, collectionId,
                                                limit, offset, unreadOnly, savedOnly).value.0;
            (forall i :: 0 <= i < |items| ==>
               items[i].0 in articles.rows && items[i].1 == articles.rows[items[i].0]
               && Link(collectionId, items[i].1.feedId) in links
               && (unreadOnly ==> Unread(states, userId, items[i].0))
               && (savedOnly ==> Saved(states, userId, items[i].0)))
            && SortedBy(items, ByRecency)
  {
    var all := Ordered(articles, links, states, userId, collectionId, unreadOnly, savedOnly);
    var items := Page(all, offset, limit);
    forall i | 0 <= i < |items|
      ensures items[i].0 in articles.rows && items[i].1 == articles.rows[items[i].0]
      ensures Link(collectionId, items[i].1.feedId) in links
      ensures (unreadOnly ==> Unread(states, userId, items[i].0)) && (savedOnly ==> Saved(states, userId, items[i].0))
    {
      assert items[i] == all[offset + i];
      assert all[offset + i] in all;
      StateFilterMeaning(states, userId, items[i].0, unreadOnly, savedOnly);
    }
    forall i, j | 0 <= i < j < |items| ensures ByRecency(items[i], items[j]) {
      assert items[i] == all[offset + i] && items[j] == all[offset + j];
    }
  }

  /** Without filters the selection is every article of every linked feed,
      whatever the user's state rows. */
  lemma NoFilterIsLinkedArticles(articles: map<ArticleId, Article>, links: set<Link>,
                                 states: map<(UserId, ArticleId), ArticleState>, userId: UserId,
                                 collectionId: CollectionId, id: ArticleId)
    ensures Selected(articles, links, states, userId, collectionId, false, false, id)
            <==> id in articles && Link(collectionId, articles[id].feedId) in links
  {
  }

  /** The filters only read the requesting user's rows: two state tables that
      agree on that user list the same page with the same total. */
  lemma OnlyRequesterStateMatters(collections: map<CollectionId, Collection>, links: set<Link>, articles: Table<Article>,
                                  s1: map<(UserId, ArticleId), ArticleState>, s2: map<(UserId, ArticleId), ArticleState>,
                                  userId: UserId, collectionId: CollectionId, limit: nat, offset: nat,
                                  unreadOnly: bool, savedOnly: bool)
    requires articles.WellFormed()
    requires forall a :: (userId, a) in s1 <==> (userId, a) in s2
    requires forall a :: (userId, a) in s1 ==> s1[(userId, a)] == s2[(userId, a)]
    ensures ListCollectionArticles(collections, links, articles, s1, userId, collectionId, limit, offset, unreadOnly, savedOnly)
         == ListCollectionArticles(collections, links, articles, s2, userId, collectionId, limit, offset, unreadOnly, savedOnly)
  {
    var ids := articles.Ids();
    forall id | id in ids
      ensures Selected(articles.rows, links, s1, userId, collectionId, unreadOnly, savedOnly, id)
          <==> Selected(articles.rows, links, s2, userId, collectionId, unreadOnly, savedOnly, id)
    {
      StateFilterMeaning(s1, userId, id, unreadOnly, savedOnly);
      StateFilterMeaning(s2, userId, id, unreadOnly, savedOnly);
    }
    FilterCongruent(ids,
                    (id: ArticleId) => Selected(articles.rows, links, s1, userId, collectionId, unreadOnly, savedOnly, id),
                    (id: ArticleId) => Selected(articles.rows, links, s2, userId, collectionId, unreadOnly, savedOnly, id));
  }

  /** The total never depends on the page asked for. */
  lemma TotalIgnoresPaging(collections: map<CollectionId, Collection>, links: set<Link>, articles: Table<Article>,
                           states: map<(UserId, ArticleId), ArticleState>, userId: UserId, collectionId: CollectionId,
                           l1: nat, o1: nat, l2: nat, o2: nat, unreadOnly: bool, savedOnly: bool)
    requires articles.WellFormed()
    requires OwnedBy(collections, userId, collectionId)
    ensures ListCollectionArticles(collections, links, articles, states, userId, collectionId, l1, o1, unreadOnly, savedOnly).value.1
         == ListCollectionArticles(collections, links, articles, states, userId, collectionId, l2, o2, unreadOnly, savedOnly).value.1
  {
  }
}

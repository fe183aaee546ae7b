/** Per-user read/saved state of articles: a row per (user, article),
    created on first use with both flags off, whose timestamps are set only
    when a flag turns on and cleared when it turns off. */
module ArticleStateService {
  import opened Base
  import opened Models
  import opened Store

  /** A freshly created state row: neither read nor saved. */
  const DefaultState: ArticleState := ArticleState(false, false, None, None)

  /** The user's state for an article, or the default when there is no row. */
  function StateOf(states: map<(UserId, ArticleId), ArticleState>, userId: UserId, articleId: ArticleId): (r: ArticleState)
    ensures (userId, articleId) in states ==> r == states[(userId, articleId)]
    ensures (userId, articleId) !in states ==> r == DefaultState
  {
    if (userId, articleId) in states then states[(userId, articleId)] else DefaultState
  }

  /** `_get_article_or_404`. */
  function GetArticleOr404(articles: map<ArticleId, Article>, articleId: ArticleId): (r: Result<Article, ServiceError>)
    ensures r.Ok? <==> articleId in articles
    ensures r.Ok? ==> r.value == articles[articleId]
    ensures r.Err? ==> r.error == NotFound("Article not found.")
  {
    if articleId in articles then Ok(articles[articleId]) else Err(NotFound("Article not found."))
  }

  // ---------------------------------------------------------------------
  // The four transitions on one state row

  /** `mark_read` on a row: the read time is taken only on the unread-to-read transition. */
  function MarkReadState(s: ArticleState, now: Instant): (r: ArticleState)
    ensures r.isRead
    ensures r.isSaved == s.isSaved && r.savedAt == s.savedAt
    ensures s.isRead ==> r.readAt == s.readAt
    ensures !s.isRead ==> r.readAt == Some(now)
  {
    if !s.isRead then s.(isRead := true, readAt := Some(now)) else s
  }

  /** `mark_unread` on a row. */
  function MarkUnreadState(s: ArticleState): (r: ArticleState)
    ensures !r.isRead && r.readAt.None?
    ensures r.isSaved == s.isSaved && r.savedAt == s.savedAt
  {
    s.(isRead := false, readAt := None)
  }

  /** `mark_saved` on a row: the save time is taken only on the unsaved-to-saved transition. */
  function MarkSavedState(s: ArticleState, now: Instant): (r: ArticleState)
    ensures r.isSaved
    ensures r.isRead == s.isRead && r.readAt == s.readAt
    ensures s.isSaved ==> r.savedAt == s.savedAt
    ensures !s.isSaved ==> r.savedAt == Some(now)
  {
    if !s.isSaved then s.(isSaved := true, savedAt := Some(now)) else s
  }

  /** `mark_unsaved` on a row. */
  function MarkUnsavedState(s: ArticleState): (r: ArticleState)
    ensures !r.isSaved && r.savedAt.None?
    ensures r.isRead == s.isRead && r.readAt == s.readAt
  {
    s.(isSaved := false, savedAt := None)
  }

  /** Marking read again keeps the first read time. */
  lemma MarkReadIdempotent(s: ArticleState, t1: Instant, t2: Instant)
    ensures MarkReadState(MarkReadState(s, t1), t2) == MarkReadState(s, t1)
  {
  }

  lemma MarkUnreadIdempotent(s: ArticleState)
    ensures MarkUnreadState(MarkUnreadState(s)) == MarkUnreadState(s)
  {
  }

  lemma MarkSavedIdempotent(s: ArticleState, t1: Instant, t2: Instant)
    ensures MarkSavedState(MarkSavedState(s, t1), t2) == MarkSavedState(s, t1)
  {
  }

  lemma MarkUnsavedIdempotent(s: ArticleState)
    ensures MarkUnsavedState(MarkUnsavedState(s)) == MarkUnsavedState(s)
  {
  }

  /** Every transition keeps "a timestamp exactly when its flag is set". */
  lemma TransitionsKeepConsistency(s: ArticleState, now: Instant)
    requires StateConsistent(s)
    ensures StateConsistent(MarkReadState(s, now)) && StateConsistent(MarkUnreadState(s))
    ensures StateConsistent(MarkSavedState(s, now)) && StateConsistent(MarkUnsavedState(s))
  {
  }

  /** The read and the saved halves are independent: the operations commute. */
  lemma ReadAndSaveCommute(s: ArticleState, t1: Instant, t2: Instant)
    ensures MarkSavedState(MarkReadState(s, t1), t2) == MarkReadState(MarkSavedState(s, t2), t1)
    ensures MarkUnsavedState(MarkReadState(s, t1)) == MarkReadState(MarkUnsavedState(s), t1)
    ensures MarkSavedState(MarkUnreadState(s), t2) == MarkUnreadState(MarkSavedState(s, t2))
    ensures MarkUnsavedState(MarkUnreadState(s)) == MarkUnreadState(MarkUnsavedState(s))
  {
  }

  /** Unread then read takes a new read time; read then unread always ends unread. */
  lemma ReadUnreadRoundTrip(s: ArticleState, t: Instant)
    ensures MarkReadState(MarkUnreadState(s), t).readAt == Some(t)
    ensures MarkUnreadState(MarkReadState(s, t)) == MarkUnreadState(s)
  {
  }

  // ---------------------------------------------------------------------
  // The service operations

  /** `_get_or_create_state`: the existing row, or a new default row. */
  method GetOrCreateState(db: Database, userId: UserId, articleId: ArticleId) returns (s: ArticleState)
    requires db.Valid()
    modifies db`states
    ensures db.Valid()
    ensures s == StateOf(old(db.states), userId, articleId)
    ensures db.states == old(db.states)[(userId, articleId) := s]
  {
    if (userId, articleId) in db.states {
      s := db.states[(userId, articleId)];
    } else {
      s := DefaultState;
      db.states := db.states[(userId, articleId) := s];
    }
  }

  /** `mark_read`. */
  method MarkRead(db: Database, userId: UserId, articleId: ArticleId, now: Instant)
    returns (res: Result<ArticleState, ServiceError>)
    requires db.Valid()
    modifies db`states
    ensures db.Valid()
    ensures articleId !in db.articles.rows ==>
              res == Err(NotFound("Article not found.")) && db.states == old(db.states)
    ensures articleId in db.articles.rows ==>
              var s := MarkReadState(StateOf(old(db.states), userId, articleId), now);
              res == Ok(s) && db.states == old(db.states)[(userId, articleId) := s]
  {
    var a := GetArticleOr404(db.articles.rows, articleId);
    if a.Err? {
      return Err(a.error);
    }
    var s := GetOrCreateState(db, userId, articleId);
    if !s.isRead {
      s := s.(isRead := true, readAt := Some(now));
    }
    db.states := db.states[(userId, articleId) := s];
    return Ok(s);
  }

  /** `mark_unread`. */
  method MarkUnread(db: Database, userId: UserId, articleId: ArticleId)
    returns (res: Result<ArticleState, ServiceError>)
    requires db.Valid()
    modifies db`states
    ensures db.Valid()
    ensures articleId !in db.articles.rows ==>
              res == Err(NotFound("Article not found.")) && db.states == old(db.states)
    ensures articleId in db.articles.rows ==>
              var s := MarkUnreadState(StateOf(old(db.states), userId, articleId));
              res == Ok(s) && db.states == old(db.states)[(userId, articleId) := s]
  {
    var a := GetArticleOr404(db.articles.rows, articleId);
    if a.Err? {
      return Err(a.error);
    }
    var s := GetOrCreateState(db, userId, articleId);
    s := s.(isRead := false, readAt := None);
    db.states := db.states[(userId, articleId) := s];
    return Ok(s);
  }

  /** `mark_saved`. */
  method MarkSaved(db: Database, userId: UserId, articleId: ArticleId, now: Instant)
    returns (res: Result<ArticleState, ServiceError>)
    requires db.Valid()
    modifies db`states
    ensures db.Valid()
    ensures articleId !in db.articles.rows ==>
              res == Err(NotFound("Article not found.")) && db.states == old(db.states)
    ensures articleId in db.articles.rows ==>
              var s := MarkSavedState(StateOf(old(db.states), userId, articleId), now);
              res == Ok(s) && db.states == old(db.states)[(userId, articleId) := s]
  {
    var a := GetArticleOr404(db.articles.rows, articleId);
    if a.Err? {
      return Err(a.error);
    }
    var s := GetOrCreateState(db, userId, articleId);
    if !s.isSaved {
      s := s.(isSaved := true, savedAt := Some(now));
    }
    db.states := db.states[(userId, articleId) := s];
    return Ok(s);
  }

  /** `mark_unsaved`. */
  method MarkUnsaved(db: Database, userId: UserId, articleId: ArticleId)
    returns (res: Result<ArticleState, ServiceError>)
    requires db.Valid()
    modifies db`states
    ensures db.Valid()
    ensures articleId !in db.articles.rows ==>
              res == Err(NotFound("Article not found.")) && db.states == old(db.states)
    ensures articleId in db.articles.rows ==>
              var s := MarkUnsavedState(StateOf(old(db.states), userId, articleId));
              res == Ok(s) && db.states == old(db.states)[(userId, articleId) := s]
  {
    var a := GetArticleOr404(db.articles.rows, articleId);
    if a.Err? {
      return Err(a.error);
    }
    var s := GetOrCreateState(db, userId, articleId);
    s := s.(isSaved := false, savedAt := None);
    db.states := db.states[(userId, articleId) := s];
    return Ok(s);
  }

  /** Only the caller's row for the article changes: every other user's and
      every other article's state is what it was. */
  lemma OtherStatesUntouched(states: map<(UserId, ArticleId), ArticleState>, userId: UserId, articleId: ArticleId,
                             s: ArticleState, otherUser: UserId, otherArticle: ArticleId)
    requires (otherUser, otherArticle) != (userId, articleId)
    ensures StateOf(states[(userId, articleId) := s], otherUser, otherArticle) == StateOf(states, otherUser, otherArticle)
  {
  }
}

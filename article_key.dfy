/** The article deduplication key: a digest of the guid, or of the url when
    the guid is missing or empty, recomputed whenever a row is written.
    SHA-256 is the parameter `sha256`. */
module ArticleKey {
  import opened Base
  import opened Models
  import opened Store

  const MissingSource: string := "Article requires guid or url to compute dedup_key."

  /** `compute_dedup_key`: the error result stands for the `ValueError`. */
  function ComputeDedupKey(guid: Option<string>, url: Option<string>, sha256: string -> string): (r: Result<string, string>)
    ensures Truthy(guid) ==> r == Ok(sha256(guid.value))
    ensures !Truthy(guid) && Truthy(url) ==> r == Ok(sha256(url.value))
    ensures !Truthy(guid) && !Truthy(url) ==> r == Err(MissingSource)
  {
    var source := OrElse(guid, url);
    if !Truthy(source) then Err(MissingSource) else Ok(sha256(source.value))
  }

  /** Whenever a guid is used, the url plays no part. */
  lemma UrlIgnoredWithGuid(guid: Option<string>, u1: Option<string>, u2: Option<string>, sha256: string -> string)
    requires Truthy(guid)
    ensures ComputeDedupKey(guid, u1, sha256) == ComputeDedupKey(guid, u2, sha256)
  {
  }

  /** The key depends on the chosen source string only: a guid and a url
      with the same text give the same key. */
  lemma SameSourceSameKey(s: string, sha256: string -> string)
    requires s != ""
    ensures ComputeDedupKey(Some(s), None, sha256) == ComputeDedupKey(None, Some(s), sha256)
    ensures ComputeDedupKey(Some(""), Some(s), sha256) == ComputeDedupKey(None, Some(s), sha256)
  {
  }

  /** The `before_insert` and `before_update` listeners: both store the key
      recomputed from the row's current guid and url, or fail. */
  function WithDedupKey(a: Article, sha256: string -> string): (r: Result<Article, string>)
    ensures r.Ok? <==> ComputeDedupKey(a.guid, a.url, sha256).Ok?
    ensures r.Ok? ==> r.value == a.(dedupKey := ComputeDedupKey(a.guid, a.url, sha256).value)
    ensures r.Err? ==> r.error == MissingSource
  {
    match ComputeDedupKey(a.guid, a.url, sha256)
    case Ok(k) => Ok(a.(dedupKey := k))
    case Err(e) => Err(e)
  }

  /** Writing a row twice stores the same key, and an edit that leaves guid
      and url alone never changes it. */
  lemma DedupKeyStable(a: Article, title: string, sha256: string -> string)
    requires WithDedupKey(a, sha256).Ok?
    ensures WithDedupKey(WithDedupKey(a, sha256).value, sha256) == WithDedupKey(a, sha256)
    ensures WithDedupKey(a.(title := title), sha256).value.dedupKey == WithDedupKey(a, sha256).value.dedupKey
  {
  }

  /** The keys already stored for one feed. */
  function FeedKeys(arts: map<ArticleId, Article>, feedId: FeedId): (r: set<string>)
    ensures forall k :: k in r <==> exists id :: id in arts && arts[id].feedId == feedId && arts[id].dedupKey == k
  {
    set id | id in arts && arts[id].feedId == feedId :: arts[id].dedupKey
  }

  /** A new row adds its key to its own feed's keys and to no other's. */
  lemma FeedKeysInsert(arts: map<ArticleId, Article>, id: ArticleId, a: Article)
    requires id !in arts
    ensures forall f :: FeedKeys(arts[id := a], f) == FeedKeys(arts, f) + (if f == a.feedId then {a.dedupKey} else {})
  {
    var arts' := arts[id := a];
    forall f ensures FeedKeys(arts', f) == FeedKeys(arts, f) + (if f == a.feedId then {a.dedupKey} else {}) {
      forall k | k in FeedKeys(arts, f) ensures k in FeedKeys(arts', f) {
        var x :| x in arts && arts[x].feedId == f && arts[x].dedupKey == k;
        assert arts'[x] == arts[x];
      }
      if f == a.feedId {
        assert arts'[id] == a;
      }
    }
  }

  /** Every key stored for the feed is in `bound`. */
  ghost predicate KeysWithin(arts: map<ArticleId, Article>, feedId: FeedId, bound: set<string>) {
    forall id :: id in arts && arts[id].feedId == feedId ==> arts[id].dedupKey in bound
  }

  lemma FeedKeysWithin(arts: map<ArticleId, Article>, feedId: FeedId)
    ensures KeysWithin(arts, feedId, FeedKeys(arts, feedId))
  {
  }

  /** The same guid may appear in two feeds: uniqueness is per feed. */
  lemma SameGuidAcrossFeeds(a: Article)
    ensures UniqueDedupKeys(map[0 := a, 1 := a.(feedId := a.feedId + 1)])
  {
  }
}

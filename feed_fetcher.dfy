/** Storing the entries of one fetched feed: every parsed entry is either
    skipped (no usable guid or link, or a key already stored for the feed or
    taken earlier in the batch) or stored as a new article, and the feed's
    fetch bookkeeping is updated.  The HTTP request and the parser are
    replaced by their outcome, a `Fetch` value; SHA-256 is `sha256`. */
module FeedFetcher {
  import opened Base
  import opened Text
  import opened Models
  import opened Store
  import opened ArticleKey

  /** A parsed feed entry, with its time stamps already converted and its
      content already taken from the first content item. */
  datatype Entry = Entry(
    id: Option<string>,
    guid: Option<string>,
    link: Option<string>,
    title: Option<string>,
    summary: Option<string>,
    description: Option<string>,
    publishedParsed: Option<Instant>,
    updatedParsed: Option<Instant>,
    content: Option<string>,
    author: Option<string>)

  /** What the request and the parser produced: a transport or status
      failure, a parse failure, or the entries with the response's ETag and
      (converted) Last-Modified headers. */
  datatype Fetch =
    | RequestFailed
    | ParseFailed
    | Parsed(entries: seq<Entry>, etag: Option<string>, lastModified: Option<Instant>)

  /** `ValueError` for an unknown feed; `FeedFetchError` with its message. */
  datatype FetchError = FeedMissing(feedId: FeedId) | FetchFailed(message: string)

  datatype FeedFetchResult = FeedFetchResult(feedId: FeedId, fetchedCount: nat, createdCount: nat, skippedCount: nat)

  /** The entry's guid: its `id`, or its `guid` when `id` is missing or empty. */
  function EntryGuid(e: Entry): (r: Option<string>)
    ensures Truthy(e.id) ==> r == e.id
    ensures !Truthy(e.id) ==> r == e.guid
  {
    OrElse(e.id, e.guid)
  }

  function EntryKey(e: Entry, sha256: string -> string): Result<string, string> {
    ComputeDedupKey(EntryGuid(e), e.link, sha256)
  }

  /** The first loop: the entries that have a key, paired with it, in order. */
  function Candidates(entries: seq<Entry>, sha256: string -> string): (r: seq<(string, Entry)>)
    ensures |r| <= |entries|
    ensures forall c :: c in r <==> c.1 in entries && EntryKey(c.1, sha256) == Ok(c.0)
    decreases |entries|
  {
    if entries == [] then []
    else
      var init := Candidates(entries[..|entries| - 1], sha256);
      var e := entries[|entries| - 1];
      assert entries == entries[..|entries| - 1] + [e];
      match EntryKey(e, sha256)
      case Ok(k) => init + [(k, e)]
      case Err(_) => init
  }

  /** An entry with neither guid nor link is never a candidate. */
  lemma NoGuidNoLinkSkipped(entries: seq<Entry>, e: Entry, sha256: string -> string)
    requires !Truthy(e.id) && !Truthy(e.guid) && !Truthy(e.link)
    ensures forall c :: c in Candidates(entries, sha256) ==> c.1 != e
  {
  }

  function KeysOf(cs: seq<(string, Entry)>): (r: set<string>)
    ensures forall k :: k in r <==> exists c :: c in cs && c.0 == k
  {
    set c | c in cs :: c.0
  }

  /** The second loop: each candidate whose key is neither among `existing`
      nor taken by an earlier candidate, in order. */
  function Fresh(cs: seq<(string, Entry)>, existing: set<string>): (r: seq<(string, Entry)>)
    ensures |r| <= |cs|
    ensures forall c :: c in r ==> c in cs
    decreases |cs|
  {
    if cs == [] then []
    else
      var init := Fresh(cs[..|cs| - 1], existing);
      var c := cs[|cs| - 1];
      assert cs == cs[..|cs| - 1] + [c];
      if c.0 in existing || c.0 in KeysOf(init) then init else init + [c]
  }

  /** One more candidate: kept exactly when its key is new. */
  lemma FreshSnoc(pre: seq<(string, Entry)>, c: (string, Entry), existing: set<string>)
    ensures Fresh(pre + [c], existing)
         == if c.0 in existing || c.0 in KeysOf(Fresh(pre, existing)) then Fresh(pre, existing)
            else Fresh(pre, existing) + [c]
  {
    assert (pre + [c])[..|pre + [c]| - 1] == pre;
  }

  lemma FreshPrefixStep(cs: seq<(string, Entry)>, i: nat, existing: set<string>)
    requires i < |cs|
    ensures Fresh(cs[..i + 1], existing)
         == if cs[i].0 in existing || cs[i].0 in KeysOf(Fresh(cs[..i], existing)) then Fresh(cs[..i], existing)
            else Fresh(cs[..i], existing) + [cs[i]]
  {
    PrefixSnoc(cs, i);
    FreshSnoc(cs[..i], cs[i], existing);
  }

  /** The fresh prefix after one more pass of the loop. */
  lemma KeptStep(cs: seq<(string, Entry)>, i: nat, existing: set<string>, kept: seq<(string, Entry)>, added: bool,
                 kept': seq<(string, Entry)>)
    requires i < |cs| && kept == Fresh(cs[..i], existing)
    requires added <==> cs[i].0 !in existing + KeysOf(kept)
    requires kept' == if added then kept + [cs[i]] else kept
    ensures kept' == Fresh(cs[..i + 1], existing)
  {
    FreshPrefixStep(cs, i, existing);
  }

  /** No fresh key is an existing one, and no two fresh entries share a key. */
  lemma {:induction false} FreshKeysDistinct(cs: seq<(string, Entry)>, existing: set<string>)
    ensures var r := Fresh(cs, existing);
            (forall i :: 0 <= i < |r| ==> r[i].0 !in existing)
            && (forall i, j :: 0 <= i < j < |r| ==> r[i].0 != r[j].0)
    decreases |cs|
  {
    if cs != [] {
      FreshKeysDistinct(cs[..|cs| - 1], existing);
      var init := Fresh(cs[..|cs| - 1], existing);
      var c := cs[|cs| - 1];
      FreshSnoc(cs[..|cs| - 1], c, existing);
      assert cs == cs[..|cs| - 1] + [c];
      if !(c.0 in existing || c.0 in KeysOf(init)) {
        var r := init + [c];
        forall i | 0 <= i < |r| ensures r[i].0 !in existing {
          if i < |init| {
            assert r[i] == init[i];
          }
        }
        forall i, j | 0 <= i < j < |r| ensures r[i].0 != r[j].0 {
          if j == |init| {
            assert r[i] in init && r[i].0 in KeysOf(init);
          } else {
            assert r[i] == init[i] && r[j] == init[j];
          }
        }
      }
    }
  }

  /** Every candidate's key ends up existing or fresh. */
  lemma {:induction false} FreshCovers(cs: seq<(string, Entry)>, existing: set<string>)
    ensures forall c :: c in cs ==> c.0 in existing || c.0 in KeysOf(Fresh(cs, existing))
    decreases |cs|
  {
    if cs != [] {
      var pre := cs[..|cs| - 1];
      FreshCovers(pre, existing);
      var init := Fresh(pre, existing);
      var last := cs[|cs| - 1];
      assert cs == pre + [last];
      forall c | c in cs ensures c.0 in existing || c.0 in KeysOf(Fresh(cs, existing)) {
        if c in pre && c.0 in KeysOf(init) {
          var d :| d in init && d.0 == c.0;
          assert d in Fresh(cs, existing);
        }
      }
    }
  }

  /** With every key already existing, nothing is fresh. */
  lemma {:induction false} NothingFresh(cs: seq<(string, Entry)>, existing: set<string>)
    requires KeysOf(cs) <= existing
    ensures Fresh(cs, existing) == []
    decreases |cs|
  {
    if cs != [] {
      var pre := cs[..|cs| - 1];
      assert KeysOf(pre) <= KeysOf(cs) by {
        forall k | k in KeysOf(pre) ensures k in KeysOf(cs) {
          var d :| d in pre && d.0 == k;
          assert d in cs;
        }
      }
      NothingFresh(pre, existing);
      assert cs[|cs| - 1] in cs;
    }
  }

  /** The stored title: the stripped entry title, or "Untitled" when that is empty. */
  function EntryTitle(e: Entry): (r: string)
    ensures r != ""
    ensures (!Truthy(e.title) || Strip(e.title.value) == "") ==> r == "Untitled"
    ensures (Truthy(e.title) && Strip(e.title.value) != "") ==> r == Strip(e.title.value)
  {
    var t := if Truthy(e.title) then e.title.value else "";
    assert Strip("") == "" by { StripEmptyIff(""); }
    if Strip(t) == "" then "Untitled" else Strip(t)
  }

  /** The article stored for a fresh entry. */
  function ArticleFrom(feedId: FeedId, key: string, e: Entry, now: Instant): (a: Article)
    ensures a.feedId == feedId && a.dedupKey == key && a.title == EntryTitle(e)
    ensures a.url == e.link && a.guid == EntryGuid(e)
    ensures a.summary == OrElse(e.summary, e.description)
    ensures a.publishedAt == OrElseInstant(e.publishedParsed, e.updatedParsed)
  {
    Article(feedId, EntryTitle(e), e.link, EntryGuid(e), OrElseInstant(e.publishedParsed, e.updatedParsed),
            OrElse(e.summary, e.description), if Truthy(e.content) then e.content else None, e.author, key, now)
  }

  /** The insert listener recomputes the key the loop already used. */
  lemma ListenerAgrees(feedId: FeedId, c: (string, Entry), now: Instant, sha256: string -> string)
    requires EntryKey(c.1, sha256) == Ok(c.0)
    ensures WithDedupKey(ArticleFrom(feedId, c.0, c.1, now), sha256) == Ok(ArticleFrom(feedId, c.0, c.1, now))
  {
  }

  /** The rows the second loop adds, one per fresh candidate. */
  function NewArticles(feedId: FeedId, newOnes: seq<(string, Entry)>, now: Instant): (r: seq<Article>)
    ensures |r| == |newOnes|
    decreases |newOnes|
  {
    if newOnes == [] then []
    else
      var last := newOnes[|newOnes| - 1];
      NewArticles(feedId, newOnes[..|newOnes| - 1], now) + [ArticleFrom(feedId, last.0, last.1, now)]
  }

  /** The i-th new row is the article built from the i-th fresh candidate. */
  lemma {:induction false} NewArticlesRows(feedId: FeedId, newOnes: seq<(string, Entry)>, now: Instant)
    ensures forall i :: 0 <= i < |newOnes| ==>
              NewArticles(feedId, newOnes, now)[i] == ArticleFrom(feedId, newOnes[i].0, newOnes[i].1, now)
    decreases |newOnes|
  {
    if newOnes != [] {
      var pre := newOnes[..|newOnes| - 1];
      NewArticlesRows(feedId, pre, now);
      var r, init := NewArticles(feedId, newOnes, now), NewArticles(feedId, pre, now);
      forall i | 0 <= i < |newOnes| ensures r[i] == ArticleFrom(feedId, newOnes[i].0, newOnes[i].1, now) {
        if i < |pre| {
          assert r[i] == init[i] && pre[i] == newOnes[i];
        }
      }
    }
  }

  /** Each new row is in the feed and carries its candidate's key. */
  lemma NewArticlesKeys(feedId: FeedId, newOnes: seq<(string, Entry)>, now: Instant, i: nat)
    requires i < |newOnes|
    ensures NewArticles(feedId, newOnes, now)[i].feedId == feedId
    ensures NewArticles(feedId, newOnes, now)[i].dedupKey == newOnes[i].0
  {
    NewArticlesRows(feedId, newOnes, now);
  }

  /** Inserting rows one after the other with autoincrement ids. */
  function InsertAll(t: Table<Article>, arts: seq<Article>): (r: Table<Article>)
    requires t.WellFormed()
    ensures r.WellFormed() && r.nextId == t.nextId + |arts|
    decreases |arts|
  {
    if arts == [] then t
    else
      var init := InsertAll(t, arts[..|arts| - 1]);
      init.Insert(arts[|arts| - 1])
  }

  /** The inserts keep every old row and put the i-th new row at id
      `nextId + i`; no other id is taken. */
  lemma {:induction false} InsertAllRows(t: Table<Article>, arts: seq<Article>)
    requires t.WellFormed()
    ensures var r := InsertAll(t, arts);
            (forall k :: k in r.rows <==> k in t.rows || t.nextId <= k < r.nextId)
            && (forall k :: k in t.rows ==> r.rows[k] == t.rows[k])
            && (forall i :: 0 <= i < |arts| ==> r.rows[t.nextId + i] == arts[i])
    decreases |arts|
  {
    if arts != [] {
      var pre := arts[..|arts| - 1];
      InsertAllRows(t, pre);
      var init, r := InsertAll(t, pre), InsertAll(t, arts);
      assert r.rows == init.rows[init.nextId := arts[|arts| - 1]];
      forall i | 0 <= i < |pre| ensures r.rows[t.nextId + i] == arts[i] {
        assert pre[i] == arts[i];
      }
    }
  }

  /** Storing one more fresh entry is one more insert. */
  lemma InsertStep(t0: Table<Article>, feedId: FeedId, f: seq<(string, Entry)>, c: (string, Entry), now: Instant)
    requires t0.WellFormed()
    ensures InsertAll(t0, NewArticles(feedId, f + [c], now))
         == InsertAll(t0, NewArticles(feedId, f, now)).Insert(ArticleFrom(feedId, c.0, c.1, now))
  {
    var arts := NewArticles(feedId, f, now);
    var a := ArticleFrom(feedId, c.0, c.1, now);
    NewArticlesSnoc(feedId, f, c, now);
    InsertAllSnoc(t0, arts, a);
  }

  lemma NewArticlesSnoc(feedId: FeedId, f: seq<(string, Entry)>, c: (string, Entry), now: Instant)
    ensures NewArticles(feedId, f + [c], now) == NewArticles(feedId, f, now) + [ArticleFrom(feedId, c.0, c.1, now)]
  {
    DropLast(f, c);
  }

  lemma InsertAllSnoc(t: Table<Article>, arts: seq<Article>, a: Article)
    requires t.WellFormed()
    ensures InsertAll(t, arts + [a]) == InsertAll(t, arts).Insert(a)
  {
    DropLast(arts, a);
  }

  /** The keys a feed holds after the inserts: its old ones and the stored ones. */
  lemma {:induction false} StoredKeys(t0: Table<Article>, feedId: FeedId, kept: seq<(string, Entry)>, now: Instant)
    requires t0.WellFormed()
    ensures FeedKeys(InsertAll(t0, NewArticles(feedId, kept, now)).rows, feedId) == FeedKeys(t0.rows, feedId) + KeysOf(kept)
    decreases |kept|
  {
    if kept == [] {
      assert NewArticles(feedId, kept, now) == [];
    } else {
      var init, c := kept[..|kept| - 1], kept[|kept| - 1];
      assert kept == init + [c];
      StoredKeys(t0, feedId, init, now);
      StoredKeysStep(t0, feedId, init, c, now);
    }
  }

  lemma StoredKeysStep(t0: Table<Article>, feedId: FeedId, init: seq<(string, Entry)>, c: (string, Entry), now: Instant)
    requires t0.WellFormed()
    requires FeedKeys(InsertAll(t0, NewArticles(feedId, init, now)).rows, feedId) == FeedKeys(t0.rows, feedId) + KeysOf(init)
    ensures FeedKeys(InsertAll(t0, NewArticles(feedId, init + [c], now)).rows, feedId)
         == FeedKeys(t0.rows, feedId) + KeysOf(init + [c])
  {
    var t := InsertAll(t0, NewArticles(feedId, init, now));
    var a := ArticleFrom(feedId, c.0, c.1, now);
    InsertStep(t0, feedId, init, c, now);
    var rows := InsertAll(t0, NewArticles(feedId, init + [c], now)).rows;
    assert rows == t.rows[t.nextId := a];
    FeedKeysInsert(t.rows, t.nextId, a);
    assert FeedKeys(rows, feedId) == FeedKeys(t.rows, feedId) + {c.0};
    KeysSnoc(init, c);
    UnionStep(FeedKeys(t.rows, feedId), FeedKeys(t0.rows, feedId), KeysOf(init),
              FeedKeys(rows, feedId), KeysOf(init + [c]), c.0);
  }

  lemma UnionStep(cur: set<string>, base: set<string>, added: set<string>, next: set<string>, added': set<string>, k: string)
    requires cur == base + added && next == cur + {k} && added' == added + {k}
    ensures next == base + added'
  {
  }

  lemma KeysSnoc(f: seq<(string, Entry)>, c: (string, Entry))
    ensures KeysOf(f + [c]) == KeysOf(f) + {c.0}
  {
    forall k | k in KeysOf(f) ensures k in KeysOf(f + [c]) {
      var d :| d in f && d.0 == k;
      assert d in f + [c];
    }
    assert c in f + [c];
  }

  /** The entries one fetch stores, given the keys the feed already holds:
      only the old keys among the candidates' own are looked up (lines 120-132). */
  function ToStore(entries: seq<Entry>, oldKeys: set<string>, sha256: string -> string): (r: seq<(string, Entry)>)
    ensures |r| <= |Candidates(entries, sha256)|
    ensures forall c :: c in r ==> c in Candidates(entries, sha256)
  {
    var cands := Candidates(entries, sha256);
    Fresh(cands, oldKeys * KeysOf(cands))
  }

  /** The counts one fetch reports: every entry is fetched, and is either
      created or skipped, for want of a key or as a duplicate. */
  function Outcome(feedId: FeedId, entries: seq<Entry>, oldKeys: set<string>, sha256: string -> string): (r: FeedFetchResult)
    ensures r.feedId == feedId && r.fetchedCount == |entries|
    ensures r.createdCount == |ToStore(entries, oldKeys, sha256)|
    ensures r.createdCount + r.skippedCount == r.fetchedCount
    ensures r.skippedCount >= |entries| - |Candidates(entries, sha256)|
  {
    var cands := Candidates(entries, sha256);
    var newOnes := ToStore(entries, oldKeys, sha256);
    FeedFetchResult(feedId, |entries|, |newOnes|, (|entries| - |cands|) + (|cands| - |newOnes|))
  }

  /** `_mark_fetch_failure`. */
  function FailedFeed(f: Feed): (r: Feed)
    ensures r.failureCount == f.failureCount + 1
    ensures r == f.(failureCount := r.failureCount)
  {
    f.(failureCount := f.failureCount + 1)
  }

  /** The feed after a successful fetch: fetched now, no failures, and the
      response's validators where it sent them, the old ones otherwise. */
  function FetchedFeed(f: Feed, etag: Option<string>, lastModified: Option<Instant>, now: Instant): (r: Feed)
    ensures r.lastFetchedAt == Some(now) && r.failureCount == 0
    ensures r.etag == OrElse(etag, f.etag) && r.lastModified == OrElseInstant(lastModified, f.lastModified)
    ensures r == f.(lastFetchedAt := r.lastFetchedAt, failureCount := 0, etag := r.etag, lastModified := r.lastModified)
  {
    f.(lastFetchedAt := Some(now), failureCount := 0, etag := OrElse(etag, f.etag),
       lastModified := OrElseInstant(lastModified, f.lastModified))
  }

  /** The first loop (lines 109-118). */
  method CollectCandidates(entries: seq<Entry>, sha256: string -> string) returns (cands: seq<(string, Entry)>, skipped: nat)
    ensures cands == Candidates(entries, sha256)
    ensures skipped == |entries| - |cands|
  {
    cands := [];
    skipped := 0;
    var i := 0;
    while i < |entries|
      invariant 0 <= i <= |entries|
      invariant cands == Candidates(entries[..i], sha256)
      invariant skipped == i - |cands|
    {
      PrefixSnoc(entries, i);
      var e := entries[i];
      var key := ComputeDedupKey(OrElse(e.id, e.guid), e.link, sha256);
      if key.Err? {
        skipped := skipped + 1;
      } else {
        cands := cands + [(key.value, e)];
      }
      i := i + 1;
    }
    assert entries[..i] == entries;
  }

  /** The ghost bookkeeping after a candidate is added. */
  lemma KeptAdded(feedId: FeedId, kept: seq<(string, Entry)>, c: (string, Entry), now: Instant, existing: set<string>)
    ensures NewArticles(feedId, kept + [c], now) == NewArticles(feedId, kept, now) + [ArticleFrom(feedId, c.0, c.1, now)]
    ensures (existing + KeysOf(kept)) + {c.0} == existing + KeysOf(kept + [c])
  {
    NewArticlesSnoc(feedId, kept, c, now);
    KeysSnoc(kept, c);
    UnionStep(existing + KeysOf(kept), existing, KeysOf(kept), existing + KeysOf(kept) + {c.0}, KeysOf(kept + [c]), c.0);
  }

  /** What the second loop knows after `i` candidates: `kept` are the fresh
      ones so far, `pending` their articles, `seen` the keys seen so far. */
  ghost predicate AddedSoFar(feedId: FeedId, cands: seq<(string, Entry)>, existing: set<string>, now: Instant,
                             i: nat, kept: seq<(string, Entry)>, pending: seq<Article>, seen: set<string>,
                             created: nat, skipped: nat)
  {
    i <= |cands| && kept == Fresh(cands[..i], existing) && pending == NewArticles(feedId, kept, now)
    && seen == existing + KeysOf(kept) && created == |kept| && skipped == i - created
  }

  /** One more pass of the second loop: a candidate whose key was seen is
      skipped; any other is added, and its key becomes seen. */
  predicate PassTaken(c: (string, Entry), feedId: FeedId, now: Instant,
                      pending: seq<Article>, seen: set<string>, created: nat, skipped: nat,
                      pending': seq<Article>, seen': set<string>, created': nat, skipped': nat)
  {
    if c.0 in seen then pending' == pending && seen' == seen && created' == created && skipped' == skipped + 1
    else pending' == pending + [ArticleFrom(feedId, c.0, c.1, now)] && seen' == seen + {c.0}
         && created' == created + 1 && skipped' == skipped
  }

  lemma AddedStep(feedId: FeedId, cands: seq<(string, Entry)>, existing: set<string>, now: Instant, i: nat,
                  kept: seq<(string, Entry)>, pending: seq<Article>, seen: set<string>, created: nat, skipped: nat,
                  pending': seq<Article>, seen': set<string>, created': nat, skipped': nat)
    requires i < |cands| && AddedSoFar(feedId, cands, existing, now, i, kept, pending, seen, created, skipped)
    requires PassTaken(cands[i], feedId, now, pending, seen, created, skipped, pending', seen', created', skipped')
    ensures AddedSoFar(feedId, cands, existing, now, i + 1, if cands[i].0 in seen then kept else kept + [cands[i]],
                       pending', seen', created', skipped')
  {
    var c := cands[i];
    var added := c.0 !in seen;
    if added {
      KeptAdded(feedId, kept, c, now, existing);
    }
    KeptStep(cands, i, existing, kept, added, if added then kept + [c] else kept);
  }

  /** The second loop (lines 134-158): the articles added to the session,
      one per fresh candidate, in order, while the set of keys seen so far
      grows by each added key. */
  method AddFresh(feedId: FeedId, cands: seq<(string, Entry)>, existing: set<string>, now: Instant)
    returns (pending: seq<Article>, created: nat, skipped: nat)
    ensures pending == NewArticles(feedId, Fresh(cands, existing), now)
    ensures created == |Fresh(cands, existing)| && skipped == |cands| - created
  {
    pending := [];
    var seen := existing;
    created, skipped := 0, 0;
    ghost var kept: seq<(string, Entry)> := [];
    var i := 0;
    while i < |cands|
      invariant AddedSoFar(feedId, cands, existing, now, i, kept, pending, seen, created, skipped)
    {
      var c := cands[i];
      ghost var pending0, seen0, created0, skipped0 := pending, seen, created, skipped;
      if c.0 in seen {
        skipped := skipped + 1;
      } else {
        pending := pending + [ArticleFrom(feedId, c.0, c.1, now)];
        seen := seen + {c.0};
        created := created + 1;
      }
      AddedStep(feedId, cands, existing, now, i, kept, pending0, seen0, created0, skipped0, pending, seen, created, skipped);
      kept := if c.0 in seen0 then kept else kept + [c];
      i := i + 1;
    }
    assert cands[..i] == cands;
  }

  /** A row the commit added belongs to the feed and carries the key of the
      kept candidate at its offset. */
  lemma RowOrigin(t0: Table<Article>, t: Table<Article>, arts: seq<Article>, feedId: FeedId,
                  kept: seq<(string, Entry)>, now: Instant, x: nat)
    requires t0.WellFormed() && arts == NewArticles(feedId, kept, now) && t == InsertAll(t0, arts)
    requires x in t.rows && x !in t0.rows
    ensures t0.nextId <= x < t0.nextId + |kept|
    ensures t.rows[x].feedId == feedId && t.rows[x].dedupKey == kept[x - t0.nextId].0
  {
    InsertAllRow(t0, arts, x);
    NewArticlesKeys(feedId, kept, now, x - t0.nextId);
  }

  /** One row of the table after the inserts: an old one, or the new one at its offset. */
  lemma InsertAllRow(t: Table<Article>, arts: seq<Article>, x: nat)
    requires t.WellFormed() && x in InsertAll(t, arts).rows
    ensures x in t.rows ==> InsertAll(t, arts).rows[x] == t.rows[x]
    ensures x !in t.rows ==> t.nextId <= x < t.nextId + |arts| && InsertAll(t, arts).rows[x] == arts[x - t.nextId]
  {
    InsertAllRows(t, arts);
    if x !in t.rows {
      assert x == t.nextId + (x - t.nextId);
    }
  }

  /** Committing articles whose keys are new to their feed and distinct
      among themselves keeps (feed, key) unique. */
  lemma InsertsKeepUnique(t0: Table<Article>, arts: seq<Article>, feedId: FeedId, kept: seq<(string, Entry)>,
                          now: Instant, stored: set<string>)
    requires t0.WellFormed() && UniqueDedupKeys(t0.rows) && KeysWithin(t0.rows, feedId, stored)
    requires arts == NewArticles(feedId, kept, now)
    requires forall i :: 0 <= i < |kept| ==> kept[i].0 !in stored
    requires forall i, j :: 0 <= i < j < |kept| ==> kept[i].0 != kept[j].0
    ensures UniqueDedupKeys(InsertAll(t0, arts).rows)
  {
    var t := InsertAll(t0, arts);
    forall x, y | x in t.rows && y in t.rows && x != y && t.rows[x].feedId == t.rows[y].feedId
      ensures t.rows[x].dedupKey != t.rows[y].dedupKey
    {
      InsertAllRow(t0, arts, x);
      InsertAllRow(t0, arts, y);
      if x !in t0.rows {
        RowOrigin(t0, t, arts, feedId, kept, now, x);
      }
      if y !in t0.rows {
        RowOrigin(t0, t, arts, feedId, kept, now, y);
      }
    }
  }

  /** The commit at line 166 stores rows that keep (feed, key) unique, and
      the feed's keys grow by exactly the stored ones. */
  lemma CommitKeepsUnique(t0: Table<Article>, feedId: FeedId, entries: seq<Entry>, now: Instant, sha256: string -> string)
    requires t0.WellFormed() && UniqueDedupKeys(t0.rows)
    ensures var oldKeys := FeedKeys(t0.rows, feedId);
            var t := InsertAll(t0, NewArticles(feedId, ToStore(entries, oldKeys, sha256), now));
            UniqueDedupKeys(t.rows) && FeedKeys(t.rows, feedId) == oldKeys + KeysOf(ToStore(entries, oldKeys, sha256))
  {
    var oldKeys := FeedKeys(t0.rows, feedId);
    var kept := ToStore(entries, oldKeys, sha256);
    CreatedKeysNew(entries, oldKeys, sha256);
    FeedKeysWithin(t0.rows, feedId);
    InsertsKeepUnique(t0, NewArticles(feedId, kept, now), feedId, kept, now, oldKeys);
    StoredKeys(t0, feedId, kept, now);
  }

  /** The parsed branch of `fetch_feed_articles` (lines 104-183). */
  method StoreEntries(db: Database, feedId: FeedId, entries: seq<Entry>, etag: Option<string>,
                      lastModified: Option<Instant>, now: Instant, sha256: string -> string)
    returns (r: FeedFetchResult)
    requires db.Valid() && feedId in db.feeds.rows
    modifies db`feeds, db`articles
    ensures db.Valid()
    ensures var oldKeys := FeedKeys(old(db.articles.rows), feedId);
            r == Outcome(feedId, entries, oldKeys, sha256)
            && db.articles == InsertAll(old(db.articles), NewArticles(feedId, ToStore(entries, oldKeys, sha256), now))
            && FeedKeys(db.articles.rows, feedId) == oldKeys + KeysOf(ToStore(entries, oldKeys, sha256))
    ensures db.feeds == old(db.feeds).Update(feedId, FetchedFeed(old(db.feeds.rows[feedId]), etag, lastModified, now))
  {
    var feed := db.feeds.rows[feedId];
    var cands, noKey := CollectCandidates(entries, sha256);
    var existing := FeedKeys(db.articles.rows, feedId) * KeysOf(cands);
    var pending, created, duplicates := AddFresh(feedId, cands, existing, now);
    CommitKeepsUnique(db.articles, feedId, entries, now, sha256);
    db.articles := InsertAll(db.articles, pending);
    var updated := feed.(lastFetchedAt := Some(now), failureCount := 0, etag := OrElse(etag, feed.etag),
                         lastModified := OrElseInstant(lastModified, feed.lastModified));
    assert updated == FetchedFeed(feed, etag, lastModified, now);
    db.feeds := db.feeds.Update(feedId, updated);
    r := FeedFetchResult(feedId, |entries|, created, noKey + duplicates);
  }

  /** `fetch_feed_articles`, from the fetch outcome on. */
  method FetchFeedArticles(db: Database, feedId: FeedId, fetch: Fetch, now: Instant, sha256: string -> string)
    returns (res: Result<FeedFetchResult, FetchError>)
    requires db.Valid()
    modifies db`feeds, db`articles
    ensures db.Valid()
    ensures feedId !in old(db.feeds.rows) ==>
              res == Err(FeedMissing(feedId)) && db.feeds == old(db.feeds) && db.articles == old(db.articles)
    ensures feedId in old(db.feeds.rows) && !fetch.Parsed? ==>
              res == Err(FetchFailed(if fetch.RequestFailed? then "Feed fetch failed." else "Feed parsing failed."))
              && db.articles == old(db.articles)
              && db.feeds == old(db.feeds).Update(feedId, FailedFeed(old(db.feeds.rows[feedId])))
    ensures feedId in old(db.feeds.rows) && fetch.Parsed? ==>
              var oldKeys := FeedKeys(old(db.articles.rows), feedId);
              res == Ok(Outcome(feedId, fetch.entries, oldKeys, sha256))
              && db.articles == InsertAll(old(db.articles), NewArticles(feedId, ToStore(fetch.entries, oldKeys, sha256), now))
              && FeedKeys(db.articles.rows, feedId) == oldKeys + KeysOf(ToStore(fetch.entries, oldKeys, sha256))
              && db.feeds == old(db.feeds).Update(feedId, FetchedFeed(old(db.feeds.rows[feedId]), fetch.etag, fetch.lastModified, now))
  {
    if feedId !in db.feeds.rows {
      return Err(FeedMissing(feedId));
    }
    var feed := db.feeds.rows[feedId];
    if !fetch.Parsed? {
      db.feeds := db.feeds.Update(feedId, feed.(failureCount := feed.failureCount + 1));
      var message := if fetch.RequestFailed? then "Feed fetch failed." else "Feed parsing failed.";
      return Err(FetchFailed(message));
    }
    var r := StoreEntries(db, feedId, fetch.entries, fetch.etag, fetch.lastModified, now, sha256);
    return Ok(r);
  }

  /** A second fetch of the same entries, against the keys the first one
      left behind, creates nothing. */
  lemma RerunCreatesNothing(entries: seq<Entry>, oldKeys: set<string>, sha256: string -> string)
    ensures ToStore(entries, oldKeys + KeysOf(ToStore(entries, oldKeys, sha256)), sha256) == []
  {
    var cands := Candidates(entries, sha256);
    var newOnes := ToStore(entries, oldKeys, sha256);
    FreshCovers(cands, oldKeys * KeysOf(cands));
    assert KeysOf(cands) <= (oldKeys + KeysOf(newOnes)) * KeysOf(cands) by {
      forall k | k in KeysOf(cands) ensures k in oldKeys + KeysOf(newOnes) {
        var c :| c in cands && c.0 == k;
      }
    }
    NothingFresh(cands, (oldKeys + KeysOf(newOnes)) * KeysOf(cands));
  }

  /** Created articles never repeat a key among themselves or an old key of the feed. */
  lemma CreatedKeysNew(entries: seq<Entry>, oldKeys: set<string>, sha256: string -> string)
    ensures var newOnes := ToStore(entries, oldKeys, sha256);
            (forall i :: 0 <= i < |newOnes| ==> newOnes[i].0 !in oldKeys)
            && (forall i, j :: 0 <= i < j < |newOnes| ==> newOnes[i].0 != newOnes[j].0)
  {
    var cands := Candidates(entries, sha256);
    var existing := oldKeys * KeysOf(cands);
    var newOnes := ToStore(entries, oldKeys, sha256);
    assert newOnes == Fresh(cands, existing);
    FreshKeysDistinct(cands, existing);
    assert forall i, j :: 0 <= i < j < |newOnes| ==> newOnes[i].0 != newOnes[j].0;
    forall i | 0 <= i < |newOnes| ensures newOnes[i].0 !in oldKeys {
      assert newOnes[i].0 !in existing;
      assert newOnes[i] in cands;
      assert newOnes[i].0 in KeysOf(cands);
    }
  }
}

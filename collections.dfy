/** Collection CRUD, scoped to the owning user: another user's collection
    reads exactly like a missing one, and names are unique per owner. */
module Collections {
  import opened Base
  import opened Models
  import opened Store

  const CollectionNotFound: ServiceError := NotFound("Collection not found.")
  const NameExists: ServiceError := Conflict("Collection name already exists.")

  predicate OwnedBy(cs: map<CollectionId, Collection>, userId: UserId, id: CollectionId) {
    id in cs && cs[id].userId == userId
  }

  /** `_get_collection_for_user`: the row only when the user owns it. */
  function GetCollectionForUser(cs: map<CollectionId, Collection>, userId: UserId, id: CollectionId): (r: Option<Collection>)
    ensures r.Some? <==> OwnedBy(cs, userId, id)
    ensures r.Some? ==> r.value == cs[id]
  {
    if id in cs && cs[id].userId == userId then Some(cs[id]) else None
  }

  /** `get_collection`: 404 for a missing collection and for another user's. */
  function GetCollection(cs: map<CollectionId, Collection>, userId: UserId, id: CollectionId): (r: Result<Collection, ServiceError>)
    ensures r.Ok? <==> OwnedBy(cs, userId, id)
    ensures r.Ok? ==> r.value == cs[id]
    ensures r.Err? ==> r.error == CollectionNotFound
  {
    match GetCollectionForUser(cs, userId, id)
    case None => Err(CollectionNotFound)
    case Some(c) => Ok(c)
  }

  /** Some collection of the user other than `exclude` already has `name`. */
  predicate NameTaken(cs: map<CollectionId, Collection>, userId: UserId, name: string, exclude: Option<CollectionId>) {
    exists id :: id in cs && cs[id].userId == userId && cs[id].name == name && exclude != Some(id)
  }

  /** `_ensure_unique_name`: 409 when the name is taken within the owner's collections. */
  function EnsureUniqueName(cs: map<CollectionId, Collection>, userId: UserId, name: string, exclude: Option<CollectionId>)
    : (r: Result<(), ServiceError>)
    ensures r.Err? <==> NameTaken(cs, userId, name, exclude)
    ensures r.Err? ==> r.error == NameExists
  {
    if NameTaken(cs, userId, name, exclude) then Err(NameExists) else Ok(())
  }

  /** Storing a collection under a name the check let through keeps names
      unique per owner, for a fresh id as for the excluded id itself. */
  lemma UniqueNameKeepsInvariant(cs: map<CollectionId, Collection>, id: CollectionId, c: Collection, exclude: Option<CollectionId>)
    requires UniqueCollectionNames(cs)
    requires EnsureUniqueName(cs, c.userId, c.name, exclude).Ok?
    requires if id in cs then exclude == Some(id) else exclude.None?
    ensures UniqueCollectionNames(cs[id := c])
  {
    var cs' := cs[id := c];
    forall a, b | a in cs' && b in cs' && a != b && cs'[a].userId == cs'[b].userId
      ensures cs'[a].name != cs'[b].name
    {
      if a == id {
        assert !(b in cs && cs[b].userId == c.userId && cs[b].name == c.name && exclude != Some(b));
      } else if b == id {
        assert !(a in cs && cs[a].userId == c.userId && cs[a].name == c.name && exclude != Some(a));
      }
    }
  }

  /** Under unique names, a collection's own name is free for it to keep. */
  lemma OwnNameNotTaken(cs: map<CollectionId, Collection>, id: CollectionId)
    requires UniqueCollectionNames(cs) && id in cs
    ensures !NameTaken(cs, cs[id].userId, cs[id].name, Some(id))
  {
  }

  /** Uniqueness is per owner: another user's collection never makes a name taken. */
  lemma OtherOwnersDoNotConflict(cs: map<CollectionId, Collection>, id: CollectionId, c: Collection,
                                 userId: UserId, name: string, exclude: Option<CollectionId>)
    requires id !in cs && c.userId != userId
    ensures NameTaken(cs[id := c], userId, name, exclude) <==> NameTaken(cs, userId, name, exclude)
  {
    if NameTaken(cs[id := c], userId, name, exclude) {
      var k :| k in cs[id := c] && cs[id := c][k].userId == userId && cs[id := c][k].name == name && exclude != Some(k);
      assert k != id && k in cs;
    }
    if NameTaken(cs, userId, name, exclude) {
      var k :| k in cs && cs[k].userId == userId && cs[k].name == name && exclude != Some(k);
      assert k in cs[id := c] && cs[id := c][k] == cs[k];
    }
  }

  /** `create_collection`. */
  method CreateCollection(db: Database, userId: UserId, name: string, description: Option<string>, now: Instant)
    returns (res: Result<(CollectionId, Collection), ServiceError>)
    requires db.Valid()
    modifies db`collections
    ensures db.Valid()
    ensures NameTaken(old(db.collections.rows), userId, name, None) ==>
              res == Err(NameExists) && db.collections == old(db.collections)
    ensures !NameTaken(old(db.collections.rows), userId, name, None) ==>
              var c := Collection(userId, name, description, now);
              res == Ok((old(db.collections.nextId), c)) && db.collections == old(db.collections).Insert(c)
  {
    var u := EnsureUniqueName(db.collections.rows, userId, name, None);
    if u.Err? {
      return Err(u.error);
    }
    var c := Collection(userId, name, description, now);
    var id := db.collections.nextId;
    UniqueNameKeepsInvariant(db.collections.rows, id, c, None);
    db.collections := db.collections.Insert(c);
    return Ok((id, c));
  }

  /** A created collection is found again by its owner. */
  lemma CreatedIsFound(t: Table<Collection>, c: Collection)
    requires t.WellFormed()
    ensures GetCollection(t.Insert(c).rows, c.userId, t.nextId) == Ok(c)
  {
  }

  /** The caller's collections as (id, row) pairs, earliest created first. */
  const ByCreated := (p: (CollectionId, Collection), q: (CollectionId, Collection)) => p.1.createdAt <= q.1.createdAt

  lemma ByCreatedOrders()
    ensures Total(ByCreated) && Transitive(ByCreated)
  {
  }

  /** The ids of the user's collections, ascending. */
  function OwnedIds(t: Table<Collection>, userId: UserId): (r: seq<CollectionId>)
    requires t.WellFormed()
    ensures forall id :: id in r <==> OwnedBy(t.rows, userId, id)
    ensures NoDup(r)
  {
    IncreasingNoDup(t.Ids());
    Filter(t.Ids(), (id: CollectionId) => id in t.rows && t.rows[id].userId == userId)
  }

  /** `list_collections`. */
  function ListCollections(t: Table<Collection>, userId: UserId): (r: seq<(CollectionId, Collection)>)
    requires t.WellFormed()
    ensures forall p :: p in r <==> OwnedBy(t.rows, userId, p.0) && p.1 == t.rows[p.0]
    ensures NoDup(r)
    ensures SortedBy(r, ByCreated)
  {
    var rows := RowsOf(t.rows, OwnedIds(t, userId));
    ByCreatedOrders();
    SortByFacts(rows, ByCreated);
    SortBy(rows, ByCreated)
  }

  /** The partial update of `update_collection`: outer `None` means the field
      was not sent; a name sent as null is ignored, a description sent as
      null clears it. */
  datatype CollectionPatch = CollectionPatch(name: Option<Option<string>>, description: Option<Option<string>>)

  /** The new name, when the patch sets one. */
  function PatchName(p: CollectionPatch): (r: Option<string>)
    ensures r.Some? <==> p.name.Some? && p.name.value.Some?
    ensures r.Some? ==> r.value == p.name.value.value
  {
    if p.name.Some? then p.name.value else None
  }

  function ApplyCollectionPatch(c: Collection, p: CollectionPatch): (r: Collection)
    ensures r.userId == c.userId && r.createdAt == c.createdAt
    ensures r.name == (if PatchName(p).Some? then PatchName(p).value else c.name)
    ensures p.description.Some? ==> r.description == p.description.value
    ensures p.description.None? ==> r.description == c.description
  {
    var named := if PatchName(p).Some? then c.(name := PatchName(p).value) else c;
    if p.description.Some? then named.(description := p.description.value) else named
  }

  /** An empty patch, or one whose only field is a null name, changes nothing;
      applying a patch twice is applying it once. */
  lemma PatchLaws(c: Collection, p: CollectionPatch)
    ensures ApplyCollectionPatch(c, CollectionPatch(None, None)) == c
    ensures ApplyCollectionPatch(c, CollectionPatch(Some(None), None)) == c
    ensures ApplyCollectionPatch(ApplyCollectionPatch(c, p), p) == ApplyCollectionPatch(c, p)
  {
  }

  /** The update is refused with 409: a new name taken by another of the owner's collections. */
  predicate PatchConflicts(cs: map<CollectionId, Collection>, userId: UserId, id: CollectionId, p: CollectionPatch) {
    PatchName(p).Some? && NameTaken(cs, userId, PatchName(p).value, Some(id))
  }

  /** `update_collection`. */
  method UpdateCollection(db: Database, userId: UserId, id: CollectionId, patch: CollectionPatch)
    returns (res: Result<Collection, ServiceError>)
    requires db.Valid()
    modifies db`collections
    ensures db.Valid()
    ensures !OwnedBy(old(db.collections.rows), userId, id) ==>
              res == Err(CollectionNotFound) && db.collections == old(db.collections)
    ensures OwnedBy(old(db.collections.rows), userId, id) && PatchConflicts(old(db.collections.rows), userId, id, patch) ==>
              res == Err(NameExists) && db.collections == old(db.collections)
    ensures OwnedBy(old(db.collections.rows), userId, id) && !PatchConflicts(old(db.collections.rows), userId, id, patch) ==>
              var c := ApplyCollectionPatch(old(db.collections.rows[id]), patch);
              res == Ok(c) && db.collections == old(db.collections).Update(id, c)
  {
    var g := GetCollection(db.collections.rows, userId, id);
    if g.Err? {
      return Err(g.error);
    }
    var c := g.value;
    if patch.name.Some? && patch.name.value.Some? {
      var u := EnsureUniqueName(db.collections.rows, userId, patch.name.value.value, Some(id));
      if u.Err? {
        return Err(u.error);
      }
      c := c.(name := patch.name.value.value);
    }
    if patch.description.Some? {
      c := c.(description := patch.description.value);
    }
    assert c == ApplyCollectionPatch(g.value, patch);
    if PatchName(patch).None? {
      OwnNameNotTaken(db.collections.rows, id);
    }
    UniqueNameKeepsInvariant(db.collections.rows, id, c, Some(id));
    db.collections := db.collections.Update(id, c);
    return Ok(c);
  }

  /** `delete_collection`: returns the removed row.  Links into the collection are not touched. */
  method DeleteCollection(db: Database, userId: UserId, id: CollectionId) returns (res: Result<Collection, ServiceError>)
    requires db.Valid()
    modifies db`collections
    ensures db.Valid()
    ensures !OwnedBy(old(db.collections.rows), userId, id) ==>
              res == Err(CollectionNotFound) && db.collections == old(db.collections)
    ensures OwnedBy(old(db.collections.rows), userId, id) ==>
              res == Ok(old(db.collections.rows[id])) && db.collections == old(db.collections).Delete(id)
  {
    var g := GetCollection(db.collections.rows, userId, id);
    if g.Err? {
      return Err(g.error);
    }
    db.collections := db.collections.Delete(id);
    return Ok(g.value);
  }

  /** After a delete the collection is gone for everyone, and every other row is as before. */
  lemma DeletedIsNotFound(t: Table<Collection>, id: CollectionId, userId: UserId, other: CollectionId)
    requires t.WellFormed()
    ensures GetCollection(t.Delete(id).rows, userId, id) == Err(CollectionNotFound)
    ensures other != id ==> GetCollection(t.Delete(id).rows, userId, other) == GetCollection(t.rows, userId, other)
  {
  }
}

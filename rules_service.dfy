/** Rule CRUD, scoped to the owning user.  None of these operations touches
    `lastRunAt`, which only a rule run sets. */
module RuleService {
  import opened Base
  import opened Models
  import opened Store

  const RuleNotFound: ServiceError := NotFound("Rule not found.")

  predicate RuleOwnedBy(rs: map<RuleId, Rule>, userId: UserId, id: RuleId) {
    id in rs && rs[id].userId == userId
  }

  /** `_get_rule_for_user`. */
  function GetRuleForUser(rs: map<RuleId, Rule>, userId: UserId, id: RuleId): (r: Option<Rule>)
    ensures r.Some? <==> RuleOwnedBy(rs, userId, id)
    ensures r.Some? ==> r.value == rs[id]
  {
    if id in rs && rs[id].userId == userId then Some(rs[id]) else None
  }

  /** `get_rule`: 404 for a missing rule and for another user's. */
  function GetRule(rs: map<RuleId, Rule>, userId: UserId, id: RuleId): (r: Result<Rule, ServiceError>)
    ensures r.Ok? <==> RuleOwnedBy(rs, userId, id)
    ensures r.Ok? ==> r.value == rs[id]
    ensures r.Err? ==> r.error == RuleNotFound
  {
    match GetRuleForUser(rs, userId, id)
    case None => Err(RuleNotFound)
    case Some(rule) => Ok(rule)
  }

  /** The create payload, after request validation. */
  datatype RuleCreate = RuleCreate(
    name: string,
    frequencyMinutes: int,
    includeKeywords: Option<string>,
    excludeKeywords: Option<string>,
    collectionId: Option<CollectionId>,
    isActive: bool)

  /** The create payload with the schema's defaults: no keywords, no scope, active. */
  function DefaultCreate(name: string, frequencyMinutes: int): (c: RuleCreate)
    ensures c.isActive && c.includeKeywords.None? && c.excludeKeywords.None? && c.collectionId.None?
  {
    RuleCreate(name, frequencyMinutes, None, None, None, true)
  }

  /** The row `create_rule` stores: the payload's fields, never run yet. */
  function NewRule(userId: UserId, c: RuleCreate, now: Instant): (r: Rule)
    ensures r.userId == userId && r.name == c.name && r.frequencyMinutes == c.frequencyMinutes
    ensures r.includeKeywords == c.includeKeywords && r.excludeKeywords == c.excludeKeywords
    ensures r.collectionId == c.collectionId && r.isActive == c.isActive
    ensures r.lastRunAt.None? && r.createdAt == now
  {
    Rule(userId, c.name, c.includeKeywords, c.excludeKeywords, c.collectionId, c.frequencyMinutes, None, c.isActive, now)
  }

  /** `create_rule`. */
  method CreateRule(db: Database, userId: UserId, c: RuleCreate, now: Instant) returns (id: RuleId, rule: Rule)
    requires db.Valid()
    modifies db`rules
    ensures db.Valid()
    ensures id == old(db.rules.nextId) && rule == NewRule(userId, c, now)
    ensures db.rules == old(db.rules).Insert(rule)
  {
    rule := Rule(userId, c.name, c.includeKeywords, c.excludeKeywords, c.collectionId, c.frequencyMinutes, None, c.isActive, now);
    id := db.rules.nextId;
    db.rules := db.rules.Insert(rule);
  }

  /** A new rule is found by its owner, has never run, and is active unless asked otherwise. */
  lemma CreatedRuleFound(t: Table<Rule>, userId: UserId, name: string, frequencyMinutes: int, now: Instant)
    requires t.WellFormed()
    ensures var rule := NewRule(userId, DefaultCreate(name, frequencyMinutes), now);
            GetRule(t.Insert(rule).rows, userId, t.nextId) == Ok(rule) && rule.isActive && rule.lastRunAt.None?
  {
  }

  const RuleByCreated := (p: (RuleId, Rule), q: (RuleId, Rule)) => p.1.createdAt <= q.1.createdAt

  lemma RuleByCreatedOrders()
    ensures Total(RuleByCreated) && Transitive(RuleByCreated)
  {
  }

  /** The ids of the user's rules, ascending. */
  function OwnedRuleIds(t: Table<Rule>, userId: UserId): (r: seq<RuleId>)
    requires t.WellFormed()
    ensures forall id :: id in r <==> RuleOwnedBy(t.rows, userId, id)
    ensures NoDup(r)
  {
    IncreasingNoDup(t.Ids());
    Filter(t.Ids(), (id: RuleId) => id in t.rows && t.rows[id].userId == userId)
  }

  /** `list_rules`: exactly the caller's rules, earliest created first. */
  function ListRules(t: Table<Rule>, userId: UserId): (r: seq<(RuleId, Rule)>)
    requires t.WellFormed()
    ensures forall p :: p in r <==> RuleOwnedBy(t.rows, userId, p.0) && p.1 == t.rows[p.0]
    ensures NoDup(r)
    ensures SortedBy(r, RuleByCreated)
  {
    var rows := RowsOf(t.rows, OwnedRuleIds(t, userId));
    RuleByCreatedOrders();
    SortByFacts(rows, RuleByCreated);
    SortBy(rows, RuleByCreated)
  }

  /** The partial update of `update_rule`.  Outer `None`: the field was not
      sent.  A null name, frequency or active flag is ignored; null keywords
      and a null collection are stored. */
  datatype RulePatch = RulePatch(
    name: Option<Option<string>>,
    frequencyMinutes: Option<Option<int>>,
    includeKeywords: Option<Option<string>>,
    excludeKeywords: Option<Option<string>>,
    collectionId: Option<Option<CollectionId>>,
    isActive: Option<Option<bool>>)

  const EmptyPatch: RulePatch := RulePatch(None, None, None, None, None, None)

  /** The value a sent-if-not-null field takes. */
  function Sent<T>(field: Option<Option<T>>, current: T): (r: T)
    ensures field.Some? && field.value.Some? ==> r == field.value.value
    ensures !(field.Some? && field.value.Some?) ==> r == current
  {
    if field.Some? && field.value.Some? then field.value.value else current
  }

  /** The value a nullable field takes. */
  function SentNullable<T>(field: Option<Option<T>>, current: Option<T>): (r: Option<T>)
    ensures field.Some? ==> r == field.value
    ensures field.None? ==> r == current
  {
    if field.Some? then field.value else current
  }

  function ApplyRulePatch(rule: Rule, p: RulePatch): (r: Rule)
    ensures r.userId == rule.userId && r.createdAt == rule.createdAt && r.lastRunAt == rule.lastRunAt
    ensures r.name == Sent(p.name, rule.name)
    ensures r.frequencyMinutes == Sent(p.frequencyMinutes, rule.frequencyMinutes)
    ensures r.isActive == Sent(p.isActive, rule.isActive)
    ensures r.includeKeywords == SentNullable(p.includeKeywords, rule.includeKeywords)
    ensures r.excludeKeywords == SentNullable(p.excludeKeywords, rule.excludeKeywords)
    ensures r.collectionId == SentNullable(p.collectionId, rule.collectionId)
  {
    rule.(name := Sent(p.name, rule.name),
          frequencyMinutes := Sent(p.frequencyMinutes, rule.frequencyMinutes),
          includeKeywords := SentNullable(p.includeKeywords, rule.includeKeywords),
          excludeKeywords := SentNullable(p.excludeKeywords, rule.excludeKeywords),
          collectionId := SentNullable(p.collectionId, rule.collectionId),
          isActive := Sent(p.isActive, rule.isActive))
  }

  /** An empty patch changes nothing, a patch applied twice is applied once,
      and a patch never moves a rule's schedule. */
  lemma RulePatchLaws(rule: Rule, p: RulePatch)
    ensures ApplyRulePatch(rule, EmptyPatch) == rule
    ensures ApplyRulePatch(ApplyRulePatch(rule, p), p) == ApplyRulePatch(rule, p)
    ensures ApplyRulePatch(rule, p).lastRunAt == rule.lastRunAt
  {
  }

  /** Sending null keywords clears them; sending a null name keeps it. */
  lemma NullFieldsDiffer(rule: Rule)
    ensures ApplyRulePatch(rule, EmptyPatch.(includeKeywords := Some(None))).includeKeywords.None?
    ensures ApplyRulePatch(rule, EmptyPatch.(name := Some(None))).name == rule.name
  {
  }

  /** The field assignments of `update_rule`, lines 143-159. */
  method PatchRule(rule: Rule, patch: RulePatch) returns (r: Rule)
    ensures r == ApplyRulePatch(rule, patch)
  {
    r := rule;
    if patch.name.Some? && patch.name.value.Some? {
      r := r.(name := patch.name.value.value);
    }
    assert r.name == Sent(patch.name, rule.name);
    if patch.frequencyMinutes.Some? && patch.frequencyMinutes.value.Some? {
      r := r.(frequencyMinutes := patch.frequencyMinutes.value.value);
    }
    assert r.frequencyMinutes == Sent(patch.frequencyMinutes, rule.frequencyMinutes);
    if patch.includeKeywords.Some? {
      r := r.(includeKeywords := patch.includeKeywords.value);
    }
    assert r.includeKeywords == SentNullable(patch.includeKeywords, rule.includeKeywords);
    if patch.excludeKeywords.Some? {
      r := r.(excludeKeywords := patch.excludeKeywords.value);
    }
    assert r.excludeKeywords == SentNullable(patch.excludeKeywords, rule.excludeKeywords);
    if patch.collectionId.Some? {
      r := r.(collectionId := patch.collectionId.value);
    }
    assert r.collectionId == SentNullable(patch.collectionId, rule.collectionId);
    if patch.isActive.Some? && patch.isActive.value.Some? {
      r := r.(isActive := patch.isActive.value.value);
    }
  }

  /** `update_rule`. */
  method UpdateRule(db: Database, userId: UserId, id: RuleId, patch: RulePatch) returns (res: Result<Rule, ServiceError>)
    requires db.Valid()
    modifies db`rules
    ensures db.Valid()
    ensures !RuleOwnedBy(old(db.rules.rows), userId, id) ==> res == Err(RuleNotFound) && db.rules == old(db.rules)
    ensures RuleOwnedBy(old(db.rules.rows), userId, id) ==>
              var rule := ApplyRulePatch(old(db.rules.rows[id]), patch);
              res == Ok(rule) && db.rules == old(db.rules).Update(id, rule)
  {
    var g := GetRule(db.rules.rows, userId, id);
    if g.Err? {
      return Err(g.error);
    }
    var rule := PatchRule(g.value, patch);
    db.rules := db.rules.Update(id, rule);
    return Ok(rule);
  }

  /** `delete_rule`: returns the removed row; its matches are left in place. */
  method DeleteRule(db: Database, userId: UserId, id: RuleId) returns (res: Result<Rule, ServiceError>)
    requires db.Valid()
    modifies db`rules
    ensures db.Valid()
    ensures !RuleOwnedBy(old(db.rules.rows), userId, id) ==> res == Err(RuleNotFound) && db.rules == old(db.rules)
    ensures RuleOwnedBy(old(db.rules.rows), userId, id) ==>
              res == Ok(old(db.rules.rows[id])) && db.rules == old(db.rules).Delete(id)
  {
    var g := GetRule(db.rules.rows, userId, id);
    if g.Err? {
      return Err(g.error);
    }
    db.rules := db.rules.Delete(id);
    return Ok(g.value);
  }

  /** After a delete the rule is gone for everyone; the other rules are as before. */
  lemma DeletedRuleNotFound(t: Table<Rule>, id: RuleId, userId: UserId, other: RuleId)
    requires t.WellFormed()
    ensures GetRule(t.Delete(id).rows, userId, id) == Err(RuleNotFound)
    ensures other != id ==> GetRule(t.Delete(id).rows, userId, other) == GetRule(t.rows, userId, other)
  {
  }
}

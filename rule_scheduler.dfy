/** The periodic scheduler: find the rules whose interval has elapsed and
    run each of them, counting successes and failures separately. */
module RuleScheduler {
  import opened Base
  import opened Models
  import opened Store
  import opened RuleRunner

  datatype RunDueRulesResult = RunDueRulesResult(rulesDue: nat, rulesRun: nat, failures: nat)

  /** The database side of `get_due_rules`: active, with a positive interval. */
  predicate Schedulable(rule: Rule) {
    rule.isActive && rule.frequencyMinutes > 0
  }

  /** `_is_rule_due`: never run, or at least the interval has elapsed since the last run. */
  predicate IsRuleDue(rule: Rule, now: Instant) {
    rule.lastRunAt.None? || now - rule.lastRunAt.value >= rule.frequencyMinutes * MicrosPerMinute
  }

  predicate Due(rule: Rule, now: Instant) {
    Schedulable(rule) && IsRuleDue(rule, now)
  }

  predicate DueAt(rows: map<RuleId, Rule>, now: Instant, id: RuleId) {
    id in rows && IsRuleDue(rows[id], now)
  }

  predicate SchedulableId(rows: map<RuleId, Rule>, id: RuleId) {
    id in rows && Schedulable(rows[id])
  }

  /** The rows the query of `get_due_rules` returns, in id order. */
  function SchedulableIds(rules: Table<Rule>): (r: seq<RuleId>)
    requires rules.WellFormed()
    ensures forall id :: id in r <==> id in rules.rows && Schedulable(rules.rows[id])
    ensures StrictlyIncreasing(r)
  {
    FilterIncreasing(rules.Ids(), (id: RuleId) => SchedulableId(rules.rows, id));
    Filter(rules.Ids(), (id: RuleId) => SchedulableId(rules.rows, id))
  }

  /** Those of `ids` whose interval has elapsed at `now`, in order. */
  function DueAmong(ids: seq<RuleId>, rows: map<RuleId, Rule>, now: Instant): (r: seq<RuleId>)
    ensures forall id :: id in r <==> id in ids && DueAt(rows, now, id)
  {
    Filter(ids, (id: RuleId) => DueAt(rows, now, id))
  }

  lemma DueAmongIncreasing(ids: seq<RuleId>, rows: map<RuleId, Rule>, now: Instant)
    requires StrictlyIncreasing(ids)
    ensures StrictlyIncreasing(DueAmong(ids, rows, now))
  {
    FilterIncreasing(ids, (id: RuleId) => DueAt(rows, now, id));
  }

  lemma DueAmongSnoc(ids: seq<RuleId>, id: RuleId, rows: map<RuleId, Rule>, now: Instant)
    ensures DueAmong(ids + [id], rows, now) == DueAmong(ids, rows, now) + (if DueAt(rows, now, id) then [id] else [])
  {
    FilterSnoc(ids, id, (id: RuleId) => DueAt(rows, now, id));
  }

  /** The due rules, in id order, each once. */
  function DueRuleIds(rules: Table<Rule>, now: Instant): (r: seq<RuleId>)
    requires rules.WellFormed()
    ensures forall id :: id in r <==> id in rules.rows && Due(rules.rows[id], now)
    ensures StrictlyIncreasing(r) && NoDup(r)
  {
    DueAmongIncreasing(SchedulableIds(rules), rules.rows, now);
    IncreasingNoDup(DueAmong(SchedulableIds(rules), rules.rows, now));
    DueAmong(SchedulableIds(rules), rules.rows, now)
  }

  /** One pass of the filtering loop extends the due prefix by the candidate
      it looks at, exactly when that candidate is due. */
  lemma DueStep(cands: seq<RuleId>, i: nat, rows: map<RuleId, Rule>, now: Instant, due: seq<RuleId>, due': seq<RuleId>)
    requires i < |cands| && due == DueAmong(cands[..i], rows, now)
    requires due' == if DueAt(rows, now, cands[i]) then due + [cands[i]] else due
    ensures due' == DueAmong(cands[..i + 1], rows, now)
  {
    DueAmongSnoc(cands[..i], cands[i], rows, now);
    PrefixSnoc(cands, i);
  }

  /** The loop of `get_due_rules`: keep the candidates that are due, in order. */
  method FilterDue(candidates: seq<RuleId>, rows: map<RuleId, Rule>, now: Instant) returns (due: seq<RuleId>)
    ensures due == DueAmong(candidates, rows, now)
  {
    due := [];
    var i := 0;
    while i < |candidates|
      invariant i <= |candidates| && due == DueAmong(candidates[..i], rows, now)
    {
      var id := candidates[i];
      ghost var due0 := due;
      if id in rows && IsRuleDue(rows[id], now) {
        due := due + [id];
      }
      DueStep(candidates, i, rows, now, due0, due);
      i := i + 1;
    }
    assert candidates[..i] == candidates;
  }

  /** `get_due_rules`: the schedulable rows, filtered by `_is_rule_due`. */
  method GetDueRules(db: Database, now: Instant) returns (due: seq<RuleId>)
    requires db.rules.WellFormed()
    ensures due == DueRuleIds(db.rules, now)
  {
    var candidates := SchedulableIds(db.rules);
    due := FilterDue(candidates, db.rules.rows, now);
  }

  // ---------------------------------------------------------------------
  // The due predicate

  /** The boundary is inclusive: exactly one interval after the last run the
      rule is due, one microsecond earlier it is not. */
  lemma DueBoundaryInclusive(rule: Rule, t: Instant)
    requires Schedulable(rule) && rule.lastRunAt == Some(t)
    ensures Due(rule, t + rule.frequencyMinutes * MicrosPerMinute)
    ensures !Due(rule, t + rule.frequencyMinutes * MicrosPerMinute - 1)
  {
  }

  /** A schedulable rule that never ran is due at any time. */
  lemma NeverRunIsDue(rule: Rule, now: Instant)
    requires Schedulable(rule) && rule.lastRunAt.None?
    ensures Due(rule, now)
  {
  }

  /** An inactive rule, or one with a non-positive interval, is never due. */
  lemma UnschedulableNeverDue(rule: Rule, now: Instant)
    requires !rule.isActive || rule.frequencyMinutes <= 0
    ensures !Due(rule, now)
  {
  }

  /** Once due, a rule stays due until it runs. */
  lemma DueStaysDue(rule: Rule, now: Instant, later: Instant)
    requires Due(rule, now) && now <= later
    ensures Due(rule, later)
  {
  }

  /** A rule that has just run at `t` is not due again before a full interval. */
  lemma NotDueRightAfterRun(rule: Rule, t: Instant, later: Instant)
    requires Schedulable(rule)
    requires t <= later < t + rule.frequencyMinutes * MicrosPerMinute
    ensures !Due(rule.(lastRunAt := Some(t)), later)
  {
  }

  // ---------------------------------------------------------------------
  // The batch

  function CountIn(ids: seq<RuleId>, failing: set<RuleId>): (n: nat)
    ensures n <= |ids|
  {
    |Filter(ids, (id: RuleId) => id in failing)|
  }

  /** The rule rows after the runs of the first `k` due rules: each rule
      that did not fail carries its run time, every other rule is as before. */
  ghost predicate RowsProgress(rows0: map<RuleId, Rule>, rows: map<RuleId, Rule>, due: seq<RuleId>, k: nat,
                               failing: set<RuleId>, clock: nat -> Instant)
    requires k <= |due|
  {
    rows.Keys == rows0.Keys
    && (forall j :: 0 <= j < k && due[j] !in failing && due[j] in rows0 ==>
          rows[due[j]] == rows0[due[j]].(lastRunAt := Some(clock(j))))
    && (forall id :: id in rows0 && (id !in due[..k] || id in failing) ==> rows[id] == rows0[id])
  }

  /** The appended row `row` is one the run of `due[j]` made: that rule did
      not fail, the row's article is one the rule matches, and the row carries
      the time that run read. */
  ghost predicate MadeBy(row: RuleMatch, rows0: map<RuleId, Rule>, m0: seq<RuleMatch>, due: seq<RuleId>, j: nat,
                         failing: set<RuleId>, clock: nat -> Instant,
                         collections: map<CollectionId, Collection>, links: set<Link>, articles: Table<Article>)
    requires j < |due|
    requires articles.WellFormed()
  {
    row.ruleId == due[j] && due[j] !in failing && due[j] in rows0
    && row.articleId in PlanRun(due[j], rows0[due[j]], collections, links, articles, m0).matched
    && row.matchedAt == clock(j)
  }

  /** The row was made by the run of one of the first `k` due rules. */
  ghost predicate MadeByOneOf(row: RuleMatch, rows0: map<RuleId, Rule>, m0: seq<RuleMatch>, due: seq<RuleId>, k: nat,
                              failing: set<RuleId>, clock: nat -> Instant,
                              collections: map<CollectionId, Collection>, links: set<Link>, articles: Table<Article>)
    requires k <= |due|
    requires articles.WellFormed()
  {
    exists j :: 0 <= j < k && MadeBy(row, rows0, m0, due, j, failing, clock, collections, links, articles)
  }

  /** Match rows were only appended, each of them by the run of one of the
      first `k` due rules. */
  ghost predicate AppendedProgress(rows0: map<RuleId, Rule>, m0: seq<RuleMatch>, m: seq<RuleMatch>, due: seq<RuleId>,
                                   k: nat, failing: set<RuleId>, clock: nat -> Instant,
                                   collections: map<CollectionId, Collection>, links: set<Link>, articles: Table<Article>)
    requires k <= |due|
    requires articles.WellFormed()
  {
    m0 <= m
    && (forall i :: |m0| <= i < |m| ==>
          MadeByOneOf(m[i], rows0, m0, due, k, failing, clock, collections, links, articles))
  }

  /** Each rule that ran has a row for every article it matches. */
  ghost predicate CoveredProgress(rows0: map<RuleId, Rule>, m0: seq<RuleMatch>, m: seq<RuleMatch>,
                                  due: seq<RuleId>, k: nat, failing: set<RuleId>,
                                  collections: map<CollectionId, Collection>, links: set<Link>, articles: Table<Article>)
    requires k <= |due|
    requires articles.WellFormed()
  {
    forall j, a ::
      (0 <= j < k && due[j] !in failing && due[j] in rows0 &&
       a in PlanRun(due[j], rows0[due[j]], collections, links, articles, m0).matched) ==>
      HasMatch(m, due[j], a)
  }

  /** What the runs of the first `k` due rules have done. */
  ghost predicate Progress(rows0: map<RuleId, Rule>, rows: map<RuleId, Rule>, m0: seq<RuleMatch>, m: seq<RuleMatch>,
                           due: seq<RuleId>, k: nat, failing: set<RuleId>, clock: nat -> Instant,
                           collections: map<CollectionId, Collection>, links: set<Link>, articles: Table<Article>)
    requires k <= |due|
    requires articles.WellFormed()
  {
    RowsProgress(rows0, rows, due, k, failing, clock)
    && AppendedProgress(rows0, m0, m, due, k, failing, clock, collections, links, articles)
    && CoveredProgress(rows0, m0, m, due, k, failing, collections, links, articles)
  }

  /** A failing rule leaves the state as it was. */
  lemma ProgressFail(rows0: map<RuleId, Rule>, rows: map<RuleId, Rule>, m0: seq<RuleMatch>, m: seq<RuleMatch>,
                     due: seq<RuleId>, k: nat, failing: set<RuleId>, clock: nat -> Instant,
                     collections: map<CollectionId, Collection>, links: set<Link>, articles: Table<Article>)
    requires k < |due| && articles.WellFormed()
    requires due[k] in failing
    requires Progress(rows0, rows, m0, m, due, k, failing, clock, collections, links, articles)
    ensures Progress(rows0, rows, m0, m, due, k + 1, failing, clock, collections, links, articles)
  {
    PrefixSnoc(due, k);
    AppendedWiden(rows0, m0, m, due, k, failing, clock, collections, links, articles);
  }

  lemma NotYetRun(due: seq<RuleId>, k: nat)
    requires k < |due| && NoDup(due)
    ensures due[k] !in due[..k]
    ensures due[..k + 1] == due[..k] + [due[k]]
  {
    PrefixSnoc(due, k);
    forall j | 0 <= j < k ensures due[..k][j] != due[k] {
      assert due[..k][j] == due[j];
    }
  }

  lemma RowsRun(rows0: map<RuleId, Rule>, rows: map<RuleId, Rule>, due: seq<RuleId>, k: nat,
                failing: set<RuleId>, clock: nat -> Instant)
    requires k < |due| && NoDup(due)
    requires due[k] !in failing && due[k] in rows0
    requires RowsProgress(rows0, rows, due, k, failing, clock)
    ensures due[k] in rows && rows[due[k]] == rows0[due[k]]
    ensures RowsProgress(rows0, rows[due[k] := rows[due[k]].(lastRunAt := Some(clock(k)))], due, k + 1, failing, clock)
  {
    var id := due[k];
    NotYetRun(due, k);
    forall j | 0 <= j < k && due[j] !in failing && due[j] in rows0
      ensures due[j] != id
    {
    }
  }

  lemma AppendedRun(rows0: map<RuleId, Rule>, rows: map<RuleId, Rule>, m0: seq<RuleMatch>, m: seq<RuleMatch>,
                    due: seq<RuleId>, k: nat, failing: set<RuleId>, clock: nat -> Instant,
                    collections: map<CollectionId, Collection>, links: set<Link>, articles: Table<Article>)
    requires k < |due| && articles.WellFormed()
    requires due[k] !in failing && due[k] in rows0 && due[k] in rows && rows[due[k]] == rows0[due[k]]
    requires AppendedProgress(rows0, m0, m, due, k, failing, clock, collections, links, articles)
    ensures var id := due[k];
            var p := PlanRun(id, rows[id], collections, links, articles, m);
            AppendedProgress(rows0, m0, m + MatchRows(id, p.created, clock(k)), due, k + 1, failing, clock,
                             collections, links, articles)
  {
    var id := due[k];
    var p := PlanRun(id, rows[id], collections, links, articles, m);
    var more := MatchRows(id, p.created, clock(k));
    var m' := m + more;
    MatchedIgnoresRows(id, rows0[id], collections, links, articles, m, m0);
    forall i | |m0| <= i < |m'|
      ensures MadeByOneOf(m'[i], rows0, m0, due, k + 1, failing, clock, collections, links, articles)
    {
      if i < |m| {
        assert m'[i] == m[i];
        var j :| 0 <= j < k && MadeBy(m[i], rows0, m0, due, j, failing, clock, collections, links, articles);
        assert MadeBy(m'[i], rows0, m0, due, j, failing, clock, collections, links, articles);
      } else {
        assert m'[i] == more[i - |m|];
        assert p.created[i - |m|] in p.created;
        assert MadeBy(m'[i], rows0, m0, due, k, failing, clock, collections, links, articles);
      }
    }
  }

  /** Looking at one more due rule keeps every row's origin. */
  lemma AppendedWiden(rows0: map<RuleId, Rule>, m0: seq<RuleMatch>, m: seq<RuleMatch>, due: seq<RuleId>,
                      k: nat, failing: set<RuleId>, clock: nat -> Instant,
                      collections: map<CollectionId, Collection>, links: set<Link>, articles: Table<Article>)
    requires k < |due| && articles.WellFormed()
    requires AppendedProgress(rows0, m0, m, due, k, failing, clock, collections, links, articles)
    ensures AppendedProgress(rows0, m0, m, due, k + 1, failing, clock, collections, links, articles)
  {
    forall i | |m0| <= i < |m|
      ensures MadeByOneOf(m[i], rows0, m0, due, k + 1, failing, clock, collections, links, articles)
    {
      var j :| 0 <= j < k && MadeBy(m[i], rows0, m0, due, j, failing, clock, collections, links, articles);
      assert MadeBy(m[i], rows0, m0, due, j, failing, clock, collections, links, articles);
    }
  }

  /** Rows appended later keep every earlier match. */
  lemma CoveredExtend(rows0: map<RuleId, Rule>, m0: seq<RuleMatch>, m: seq<RuleMatch>, more: seq<RuleMatch>,
                      due: seq<RuleId>, k: nat, failing: set<RuleId>,
                      collections: map<CollectionId, Collection>, links: set<Link>, articles: Table<Article>)
    requires k <= |due| && articles.WellFormed()
    requires CoveredProgress(rows0, m0, m, due, k, failing, collections, links, articles)
    ensures CoveredProgress(rows0, m0, m + more, due, k, failing, collections, links, articles)
  {
    forall j, a | 0 <= j < k && due[j] !in failing && due[j] in rows0 &&
                  a in PlanRun(due[j], rows0[due[j]], collections, links, articles, m0).matched
      ensures HasMatch(m + more, due[j], a)
    {
      HasMatchExtend(m, more, due[j], a);
    }
  }

  /** The run of rule `id` leaves a row for everything it matches. */
  lemma CoveredNew(id: RuleId, rule: Rule, m0: seq<RuleMatch>, m: seq<RuleMatch>, t: Instant,
                   collections: map<CollectionId, Collection>, links: set<Link>, articles: Table<Article>)
    requires articles.WellFormed()
    ensures var p := PlanRun(id, rule, collections, links, articles, m);
            forall a :: a in PlanRun(id, rule, collections, links, articles, m0).matched ==>
              HasMatch(m + MatchRows(id, p.created, t), id, a)
  {
    RunLeavesAllMatched(id, rule, collections, links, articles, m, t);
    MatchedIgnoresRows(id, rule, collections, links, articles, m, m0);
  }

  lemma CoveredRun(rows0: map<RuleId, Rule>, rows: map<RuleId, Rule>, m0: seq<RuleMatch>, m: seq<RuleMatch>,
                   due: seq<RuleId>, k: nat, failing: set<RuleId>, t: Instant,
                   collections: map<CollectionId, Collection>, links: set<Link>, articles: Table<Article>)
    requires k < |due| && articles.WellFormed()
    requires due[k] !in failing && due[k] in rows0 && due[k] in rows && rows[due[k]] == rows0[due[k]]
    requires CoveredProgress(rows0, m0, m, due, k, failing, collections, links, articles)
    ensures var id := due[k];
            var p := PlanRun(id, rows[id], collections, links, articles, m);
            CoveredProgress(rows0, m0, m + MatchRows(id, p.created, t), due, k + 1, failing, collections, links, articles)
  {
    var id := due[k];
    var rule := rows0[id];
    var more := MatchRows(id, PlanRun(id, rule, collections, links, articles, m).created, t);
    CoveredExtend(rows0, m0, m, more, due, k, failing, collections, links, articles);
    CoveredNew(id, rule, m0, m, t, collections, links, articles);
  }

  /** A successful run of the next due rule extends the progress by one. */
  lemma ProgressRun(rows0: map<RuleId, Rule>, rows: map<RuleId, Rule>, m0: seq<RuleMatch>, m: seq<RuleMatch>,
                    due: seq<RuleId>, k: nat, failing: set<RuleId>, clock: nat -> Instant,
                    collections: map<CollectionId, Collection>, links: set<Link>, articles: Table<Article>)
    requires k < |due| && articles.WellFormed() && NoDup(due)
    requires due[k] !in failing && due[k] in rows0
    requires Progress(rows0, rows, m0, m, due, k, failing, clock, collections, links, articles)
    ensures var id := due[k];
            var p := PlanRun(id, rows[id], collections, links, articles, m);
            Progress(rows0, rows[id := rows[id].(lastRunAt := Some(clock(k)))], m0,
                     m + MatchRows(id, p.created, clock(k)), due, k + 1, failing, clock, collections, links, articles)
  {
    var id := due[k];
    var p := PlanRun(id, rows[id], collections, links, articles, m);
    RowsRun(rows0, rows, due, k, failing, clock);
    AppendedRun(rows0, rows, m0, m, due, k, failing, clock, collections, links, articles);
    CoveredRun(rows0, rows, m0, m, due, k, failing, clock(k), collections, links, articles);
  }

  lemma CountStep(due: seq<RuleId>, k: nat, failing: set<RuleId>)
    requires k < |due|
    ensures CountIn(due[..k + 1], failing) == CountIn(due[..k], failing) + (if due[k] in failing then 1 else 0)
  {
    FilterSnoc(due[..k], due[k], (id: RuleId) => id in failing);
    PrefixSnoc(due, k);
  }

  /** One turn of the batch loop: the k-th due rule either raises, which is
      taken to change nothing, or runs at `clock(k)`.  `Progress` is compared
      with `true` so that the verifier treats it as one fact instead of
      checking each of its conjuncts separately. */
  method RunNext(db: Database, due: seq<RuleId>, k: nat, failing: set<RuleId>, clock: nat -> Instant,
                 ghost rows0: map<RuleId, Rule>, ghost m0: seq<RuleMatch>)
    returns (failed: bool)
    requires db.Valid() && k < |due| && NoDup(due) && due[k] in rows0
    requires Progress(rows0, db.rules.rows, m0, db.matches, due, k, failing, clock, db.collections.rows, db.links, db.articles) == true
    modifies db`matches, db`rules
    ensures db.Valid()
    ensures failed <==> due[k] in failing
    ensures db.rules.nextId == old(db.rules.nextId)
    ensures Progress(rows0, db.rules.rows, m0, db.matches, due, k + 1, failing, clock, db.collections.rows, db.links, db.articles) == true
  {
    var id := due[k];
    if id in failing {
      ProgressFail(rows0, db.rules.rows, m0, db.matches, due, k, failing, clock, db.collections.rows, db.links, db.articles);
      return true;
    }
    ghost var rows, m := db.rules.rows, db.matches;
    ghost var p := PlanRun(id, rows[id], db.collections.rows, db.links, db.articles, m);
    ProgressRun(rows0, rows, m0, m, due, k, failing, clock, db.collections.rows, db.links, db.articles);
    var r := RunRule(db, id, clock(k));
    assert db.rules.rows == rows[id := rows[id].(lastRunAt := Some(clock(k)))];
    assert db.matches == m + MatchRows(id, p.created, clock(k));
    failed := r.Err?;
  }

  /** `run_due_rules`.  `now` is the time the due rules are selected at,
      `clock(k)` the time the k-th run reads, and `failing` the rules whose
      run raises.  A failing run is taken to have no effect. */
  method RunDueRules(db: Database, now: Instant, clock: nat -> Instant, failing: set<RuleId>)
    returns (res: RunDueRulesResult, ghost due: seq<RuleId>)
    requires db.Valid()
    modifies db`matches, db`rules
    ensures db.Valid()
    ensures due == DueRuleIds(old(db.rules), now)
    ensures res.rulesDue == |due|
    ensures res.failures == CountIn(due, failing)
    ensures res.rulesRun + res.failures == res.rulesDue
    ensures db.rules.nextId == old(db.rules.nextId)
    ensures Progress(old(db.rules.rows), db.rules.rows, old(db.matches), db.matches, due, |due|, failing, clock,
                     db.collections.rows, db.links, db.articles)
  {
    var ids := GetDueRules(db, now);
    due := ids;
    ghost var rows0, m0 := db.rules.rows, db.matches;
    var rulesRun, failures := 0, 0;
    var k := 0;
    while k < |ids|
      invariant 0 <= k <= |due|
      invariant db.Valid()
      invariant rulesRun + failures == k
      invariant failures == CountIn(due[..k], failing)
      invariant db.rules.nextId == old(db.rules.nextId)
      invariant Progress(rows0, db.rules.rows, m0, db.matches, due, k, failing, clock,
                         db.collections.rows, db.links, db.articles)
    {
      CountStep(due, k, failing);
      var failed := RunNext(db, ids, k, failing, clock, rows0, m0);
      if failed {
        failures := failures + 1;
      } else {
        rulesRun := rulesRun + 1;
      }
      k := k + 1;
    }
    assert due[..|due|] == due;
    res := RunDueRulesResult(|ids|, rulesRun, failures);
  }

  /** After the batch, a rule whose run failed keeps its last run time and
      so is still due. */
  lemma FailedRuleStaysDue(rows0: map<RuleId, Rule>, rows: map<RuleId, Rule>, m0: seq<RuleMatch>, m: seq<RuleMatch>,
                           due: seq<RuleId>, failing: set<RuleId>, clock: nat -> Instant,
                           collections: map<CollectionId, Collection>, links: set<Link>, articles: Table<Article>,
                           now: Instant, id: RuleId)
    requires articles.WellFormed()
    requires Progress(rows0, rows, m0, m, due, |due|, failing, clock, collections, links, articles)
    requires id in rows0 && Due(rows0[id], now) && id in failing
    ensures id in rows && rows[id] == rows0[id] && Due(rows[id], now)
  {
  }

  /** After the batch, a rule that was not due is unchanged and got no match rows. */
  lemma NotDueUntouched(rows0: map<RuleId, Rule>, rows: map<RuleId, Rule>, m0: seq<RuleMatch>, m: seq<RuleMatch>,
                        due: seq<RuleId>, failing: set<RuleId>, clock: nat -> Instant,
                        collections: map<CollectionId, Collection>, links: set<Link>, articles: Table<Article>,
                        id: RuleId)
    requires articles.WellFormed()
    requires Progress(rows0, rows, m0, m, due, |due|, failing, clock, collections, links, articles)
    requires id in rows0 && id !in due
    ensures id in rows && rows[id] == rows0[id]
    ensures forall i :: |m0| <= i < |m| ==> m[i].ruleId != id
  {
    assert due[..|due|] == due;
  }
}

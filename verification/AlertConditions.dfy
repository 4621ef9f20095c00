/** What one report does to the alerts of a rule, in numbers: for each operator, for labels, and for
    the throttle. */
module AlertConditions {
  import opened Wrappers
  import opened FixedWindow
  import opened AlertBook

  /** The rule is enabled, watches this metric, and no label it names is missing from, or different
      in, a labelled report. */
  ghost predicate Watches(rule: Rule, r: Report) {
    && rule.enabled && rule.metric == r.metric
    && (rule.labels.None? || r.labels.None? || rule.labels.value.Items <= r.labels.value.Items)
  }

  /** How the value must stand to the threshold for an alert, by the operator's name. */
  ghost predicate Breaches(operator: Operator, value: real, threshold: real) {
    var distance := value - threshold;
    && (operator == Gt ==> distance > 0.0)
    && (operator == Gte ==> !(distance < 0.0))
    && (operator == Lt ==> distance < 0.0)
    && (operator == Lte ==> !(distance > 0.0))
    && (operator == Eq ==> distance == 0.0)
    && (operator == Neq ==> distance != 0.0)
  }

  /** Some alert of the rule is active, whatever its labels. */
  ghost predicate AnyActive(book: Book, id: string) {
    exists key: AlertKey :: key.ruleId == id && IsActive(book.history, key)
  }

  /** The key an alert for the report has: the rule, and all labels of the report. */
  ghost function ReportKey(rule: Rule, r: Report): AlertKey {
    AlertKey(rule.id, match r.labels case Some(l) => l case None => map[])
  }

  lemma WatchingApplies(rule: Rule, r: Report)
    ensures Watches(rule, r) <==> Applies(rule, r)
    ensures Breaches(rule.operator, r.value, rule.threshold) <==> EvaluateCondition(rule, r.value)
  {
    if rule.labels.Some? && r.labels.Some? {
      var a, b := rule.labels.value, r.labels.value;
      if a.Items <= b.Items {
        forall k | k in a ensures k in b && b[k] == a[k] {
          assert (k, a[k]) in a.Items;
        }
      }
    }
  }

  /** After a report to a rule that watches it and has no throttle, the alert for the report's labels
      is active if and only if the value stands to the threshold as the operator says; otherwise no
      alert of the rule is active at all.  Other rules do not matter. */
  lemma UnthrottledExactly(book: Book, rules: seq<Rule>, r: Report, k: nat)
    requires DistinctIds(rules) && k < |rules| && rules[k].throttle == None && Watches(rules[k], r)
    ensures var rule, after := rules[k], Evaluate(book, rules, r);
      && (IsActive(after.history, ReportKey(rule, r)) <==> Breaches(rule.operator, r.value, rule.threshold))
      && (AnyActive(after, rule.id) <==> Breaches(rule.operator, r.value, rule.threshold))
  {
    WatchingApplies(rules[k], r);
    AfterEvaluation(book, rules, r, k);
    hide Evaluate, EvaluateCondition, Breaches, IsActive, Applies;
  }

  /** A rule that does not watch the report keeps its alerts and its window. */
  lemma OthersUntouched(book: Book, rules: seq<Rule>, r: Report, k: nat)
    requires DistinctIds(rules) && k < |rules| && !Watches(rules[k], r)
    ensures ViewOf(Evaluate(book, rules, r), rules[k].id) == ViewOf(book, rules[k].id)
  {
    WatchingApplies(rules[k], r);
    AfterEvaluation(book, rules, r, k);
  }

  ghost predicate Opposite(a: Operator, b: Operator) {
    || (a == Gt && b == Lte) || (a == Lte && b == Gt)
    || (a == Gte && b == Lt) || (a == Lt && b == Gte)
    || (a == Eq && b == Neq) || (a == Neq && b == Eq)
  }

  /** Of two rules with opposite operators and one threshold that watch the same report, never both
      have an active alert after it, throttled or not; and without throttles exactly one has. */
  lemma OppositesNeverBoth(book: Book, rules: seq<Rule>, r: Report, j: nat, k: nat)
    requires DistinctIds(rules) && j < |rules| && k < |rules|
    requires Watches(rules[j], r) && Watches(rules[k], r)
    requires Opposite(rules[j].operator, rules[k].operator) && rules[j].threshold == rules[k].threshold
    ensures var after := Evaluate(book, rules, r);
      && !(AnyActive(after, rules[j].id) && AnyActive(after, rules[k].id))
      && (rules[j].throttle == None && rules[k].throttle == None ==>
            (AnyActive(after, rules[j].id) || AnyActive(after, rules[k].id)))
  {
    WatchingApplies(rules[j], r);
    WatchingApplies(rules[k], r);
    AfterEvaluation(book, rules, r, j);
    AfterEvaluation(book, rules, r, k);
    if rules[j].throttle == None && rules[k].throttle == None {
      UnthrottledExactly(book, rules, r, j);
      UnthrottledExactly(book, rules, r, k);
    }
    hide Evaluate, IsActive, Applies, Watches;
  }

  // ----- The throttle and the record raised -----------------------------------------------------------

  /** The throttle lets an alert through: no window has been opened, its period has passed, counted
      strictly and in seconds, or it still has room. */
  ghost predicate HasRoom(t: Throttle, window: Option<Window>, now: real) {
    forall w :: window == Some(w) && now <= w.start + 1000.0 * t.periodSeconds ==> w.count < t.maxAlerts
  }

  /** The window after an alert has been let through: one more in the running one, or a new one. */
  ghost predicate Counted(t: Throttle, before: Option<Window>, after: Option<Window>, now: real) {
    match before
    case Some(w) =>
      if now <= w.start + 1000.0 * t.periodSeconds then after == Some(Window(w.start, w.count + 1))
      else after == Some(Window(now, 1))
    case None => after == Some(Window(now, 1))
  }

  /** A breach without an active alert raises one if and only if the throttle has room; the record
      carries the report's time, value and labels, and the throttle counts it.  Nothing else of the
      rule changes. */
  lemma RaisedExactly(book: Book, rules: seq<Rule>, r: Report, k: nat, t: Throttle)
    requires DistinctIds(rules) && k < |rules| && rules[k].throttle == Some(t)
    requires Watches(rules[k], r) && Breaches(rules[k].operator, r.value, rules[k].threshold)
    requires !IsActive(book.history, ReportKey(rules[k], r))
    ensures var before, after := ViewOf(book, rules[k].id), ViewOf(Evaluate(book, rules, r), rules[k].id);
      if HasRoom(t, before.window, r.now)
      then && after.records == before.records + [Record(ReportKey(rules[k], r), r.now, r.value, None)]
           && Counted(t, before.window, after.window, r.now)
      else after == before
  {
    WatchingApplies(rules[k], r);
    EvaluateByRule(book, rules, r, k);
    ActiveInView(book.history, KeyFor(rules[k], r));
  }

  /** A breach while its alert is active changes nothing of the rule, and without a breach every active
      alert of the rule is resolved, whatever its labels, at the time of the report. */
  lemma KeptOrResolvedExactly(book: Book, rules: seq<Rule>, r: Report, k: nat)
    requires DistinctIds(rules) && k < |rules| && Watches(rules[k], r)
    ensures var before, after := ViewOf(book, rules[k].id), ViewOf(Evaluate(book, rules, r), rules[k].id);
      if Breaches(rules[k].operator, r.value, rules[k].threshold)
      then IsActive(book.history, ReportKey(rules[k], r)) ==> after == before
      else
        && after.window == before.window && |after.records| == |before.records|
        && forall i :: 0 <= i < |before.records| ==>
             after.records[i] ==
               if before.records[i].resolvedAt.None? then before.records[i].(resolvedAt := Some(r.now))
               else before.records[i]
  {
    WatchingApplies(rules[k], r);
    EvaluateByRule(book, rules, r, k);
    ActiveInView(book.history, KeyFor(rules[k], r));
    RecordsAreTheRules(book.history, rules[k].id);
  }

  lemma {:induction false} RecordsAreTheRules(history: seq<Record>, id: string)
    ensures forall i :: 0 <= i < |RecordsOf(history, id)| ==> RecordsOf(history, id)[i].key.ruleId == id
  {
    if history != [] {
      RecordsAreTheRules(history[..|history| - 1], id);
    }
  }
}

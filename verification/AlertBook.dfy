/** Alert bookkeeping as values: the history of raised alerts and the throttle windows. */
module AlertBook {
  import opened Wrappers
  import opened FixedWindow

  datatype Operator = Gt | Gte | Lt | Lte | Eq | Neq

  datatype Throttle = Throttle(periodSeconds: real, maxAlerts: int)

  type Labels = map<string, string>

  datatype Rule = Rule(id: string, enabled: bool, metric: string, operator: Operator, threshold: real,
                       labels: Option<Labels>, throttle: Option<Throttle>)

  /** One metric report: `evaluateMetric(metric, value, labels)` at time `now`. */
  datatype Report = Report(metric: string, value: real, labels: Option<Labels>, now: real)

  /** The deduplication key; absent and empty labels give the same key. */
  datatype AlertKey = AlertKey(ruleId: string, labels: Labels)

  datatype Record = Record(key: AlertKey, raisedAt: real, value: real, resolvedAt: Option<real>)

  datatype Book = Book(history: seq<Record>, throttle: map<string, Window>)

  function EvaluateCondition(rule: Rule, value: real): bool {
    match rule.operator
    case Gt => value > rule.threshold
    case Gte => value >= rule.threshold
    case Lt => value < rule.threshold
    case Lte => value <= rule.threshold
    case Eq => value == rule.threshold
    case Neq => value != rule.threshold
  }

  /** Label filters count only when both the rule and the report carry labels. */
  predicate Applies(rule: Rule, r: Report) {
    && rule.enabled
    && rule.metric == r.metric
    && (rule.labels.Some? && r.labels.Some? ==>
          forall k :: k in rule.labels.value ==> k in r.labels.value && r.labels.value[k] == rule.labels.value[k])
  }

  function KeyFor(rule: Rule, r: Report): AlertKey {
    AlertKey(rule.id, if r.labels.Some? then r.labels.value else map[])
  }

  predicate IsActive(history: seq<Record>, key: AlertKey) {
    exists i :: 0 <= i < |history| && history[i].key == key && history[i].resolvedAt == None
  }

  function LimiterOf(t: Throttle): Limiter {
    Limiter(t.periodSeconds * 1000.0, true, t.maxAlerts, false)
  }

  /** The throttle lets the rule raise an alert now. */
  predicate NotThrottled(rule: Rule, throttle: map<string, Window>, now: real) {
    rule.throttle.Some? ==> Admits(LimiterOf(rule.throttle.value), Lookup(throttle, rule.id), now)
  }

  function Trigger(book: Book, rule: Rule, r: Report): Book {
    var key := KeyFor(rule, r);
    if IsActive(book.history, key) || !NotThrottled(rule, book.throttle, r.now) then book
    else Book(book.history + [Record(key, r.now, r.value, None)],
              if rule.throttle.None? then book.throttle
              else book.throttle[rule.id :=
                Next(LimiterOf(rule.throttle.value), Lookup(book.throttle, rule.id), r.now)])
  }

  function ResolveRecord(x: Record, ruleId: string, now: real): Record {
    if x.key.ruleId == ruleId && x.resolvedAt == None then x.(resolvedAt := Some(now)) else x
  }

  function ResolveAll(history: seq<Record>, ruleId: string, now: real): seq<Record> {
    seq(|history|, i requires 0 <= i < |history| => ResolveRecord(history[i], ruleId, now))
  }

  function ApplyRule(book: Book, rule: Rule, r: Report): Book {
    if !Applies(rule, r) then book
    else if EvaluateCondition(rule, r.value) then Trigger(book, rule, r)
    else book.(history := ResolveAll(book.history, rule.id, r.now))
  }

  function Evaluate(book: Book, rules: seq<Rule>, r: Report): Book
    decreases |rules|
  {
    if rules == [] then book else Evaluate(ApplyRule(book, rules[0], r), rules[1..], r)
  }

  ghost predicate DistinctIds(rules: seq<Rule>) {
    forall i, j :: 0 <= i < j < |rules| ==> rules[i].id != rules[j].id
  }

  // ----- Registering rules -----------------------------------------------------------------------

  /** `rules.set(rule.id, rule)`: a known id keeps its place. */
  function PutRule(rules: seq<Rule>, rule: Rule): seq<Rule> {
    if rules == [] then [rule]
    else if rules[0].id == rule.id then [rule] + rules[1..]
    else [rules[0]] + PutRule(rules[1..], rule)
  }

  function PutAll(rules: seq<Rule>, more: seq<Rule>): seq<Rule>
    decreases |more|
  {
    if more == [] then rules else PutAll(PutRule(rules, more[0]), more[1..])
  }

  lemma {:induction false} PutRuleAt(rules: seq<Rule>, rule: Rule, i: nat)
    requires i <= |rules| && (forall j :: 0 <= j < i ==> rules[j].id != rule.id)
    requires i < |rules| ==> rules[i].id == rule.id
    ensures PutRule(rules, rule) == if i < |rules| then rules[i := rule] else rules + [rule]
  {
    if i > 0 {
      PutRuleAt(rules[1..], rule, i - 1);
    }
  }

  /** Registering keeps ids distinct; the new rule is found under its id, and every other id as before. */
  lemma {:induction false} PutRuleIsMapSet(rules: seq<Rule>, rule: Rule)
    requires DistinctIds(rules)
    ensures DistinctIds(PutRule(rules, rule))
    ensures forall r :: r in PutRule(rules, rule) <==> r == rule || (r in rules && r.id != rule.id)
  {
    if rules != [] {
      var rest := rules[1..];
      assert forall i :: 0 <= i < |rest| ==> rest[i] == rules[i + 1];
      var tail := if rules[0].id == rule.id then rest else PutRule(rest, rule);
      PutRuleIsMapSet(rest, rule);
      var all := PutRule(rules, rule);
      forall i, j | 0 <= i < j < |all| ensures all[i].id != all[j].id {
        assert all[j] == tail[j - 1] && all[j] in tail;
        if i > 0 { assert all[i] == tail[i - 1]; }
      }
      forall r ensures r in all <==> r == rule || (r in rules && r.id != rule.id) {
        assert r in all <==> r == all[0] || r in tail;
        assert r in rules <==> r == rules[0] || r in rest;
      }
    }
  }

  // ----- At most one active alert per key -------------------------------------------------------

  ghost predicate OnePerKey(history: seq<Record>) {
    forall i, j :: 0 <= i < j < |history| && history[i].resolvedAt == None && history[j].resolvedAt == None ==>
      history[i].key != history[j].key
  }

  lemma {:induction false} EvaluateKeepsOnePerKey(book: Book, rules: seq<Rule>, r: Report)
    requires OnePerKey(book.history)
    ensures OnePerKey(Evaluate(book, rules, r).history)
    decreases |rules|
  {
    if rules != [] {
      EvaluateKeepsOnePerKey(ApplyRule(book, rules[0], r), rules[1..], r);
    }
  }

  // ----- The part of the book that belongs to one rule --------------------------------------------

  datatype View = View(records: seq<Record>, window: Option<Window>)

  function RecordsOf(history: seq<Record>, id: string): seq<Record> {
    if history == [] then []
    else
      var last := history[|history| - 1];
      RecordsOf(history[..|history| - 1], id) + (if last.key.ruleId == id then [last] else [])
  }

  function ViewOf(book: Book, id: string): View {
    View(RecordsOf(book.history, id), Lookup(book.throttle, id))
  }

  /** What one report does to the view of one rule. */
  function ViewStep(v: View, rule: Rule, r: Report): View {
    if !Applies(rule, r) then v
    else if !EvaluateCondition(rule, r.value) then v.(records := ResolveAll(v.records, rule.id, r.now))
    else if IsActive(v.records, KeyFor(rule, r)) then v
    else if rule.throttle.None? then v.(records := v.records + [Record(KeyFor(rule, r), r.now, r.value, None)])
    else if Admits(LimiterOf(rule.throttle.value), v.window, r.now) then
      View(v.records + [Record(KeyFor(rule, r), r.now, r.value, None)],
           Some(Next(LimiterOf(rule.throttle.value), v.window, r.now)))
    else v
  }

  lemma {:induction false} RecordsOfMember(history: seq<Record>, id: string, x: Record)
    ensures x in RecordsOf(history, id) <==> x in history && x.key.ruleId == id
  {
    if history != [] {
      var n := |history| - 1;
      RecordsOfMember(history[..n], id, x);
      assert history == history[..n] + [history[n]];
    }
  }

  lemma ActiveInView(history: seq<Record>, key: AlertKey)
    ensures IsActive(history, key) <==> IsActive(RecordsOf(history, key.ruleId), key)
  {
    var mine := RecordsOf(history, key.ruleId);
    if i :| 0 <= i < |history| && history[i].key == key && history[i].resolvedAt == None {
      RecordsOfMember(history, key.ruleId, history[i]);
      assert history[i] in mine;
    }
    if i :| 0 <= i < |mine| && mine[i].key == key && mine[i].resolvedAt == None {
      RecordsOfMember(history, key.ruleId, mine[i]);
      assert mine[i] in history;
    }
  }

  lemma {:induction false} RecordsOfResolved(history: seq<Record>, ruleId: string, now: real, id: string)
    ensures RecordsOf(ResolveAll(history, ruleId, now), id)
         == if id == ruleId then ResolveAll(RecordsOf(history, id), ruleId, now) else RecordsOf(history, id)
  {
    if history != [] {
      var n := |history| - 1;
      var all := ResolveAll(history, ruleId, now);
      RecordsOfResolved(history[..n], ruleId, now, id);
      assert all[..n] == ResolveAll(history[..n], ruleId, now);
    }
  }

  /** A rule changes its own view as `ViewStep` says, and no other view. */
  lemma RuleTouchesItsView(book: Book, rule: Rule, r: Report, id: string)
    ensures ViewOf(ApplyRule(book, rule, r), id)
         == if id == rule.id then ViewStep(ViewOf(book, id), rule, r) else ViewOf(book, id)
  {
    if Applies(rule, r) {
      if EvaluateCondition(rule, r.value) {
        TriggerTouchesItsView(book, rule, r, id);
      } else {
        hide RecordsOf, ResolveAll;
        RecordsOfResolved(book.history, rule.id, r.now, id);
      }
    }
  }

  lemma TriggerTouchesItsView(book: Book, rule: Rule, r: Report, id: string)
    requires Applies(rule, r) && EvaluateCondition(rule, r.value)
    ensures ViewOf(Trigger(book, rule, r), id)
         == if id == rule.id then ViewStep(ViewOf(book, id), rule, r) else ViewOf(book, id)
  {
    hide IsActive, RecordsOf, Admits, Next, LimiterOf, Applies, EvaluateCondition;
    var key := KeyFor(rule, r);
    ActiveInView(book.history, key);
    OneRecordMore(book.history, Record(key, r.now, r.value, None), id);
  }

  lemma OneRecordMore(history: seq<Record>, x: Record, id: string)
    ensures RecordsOf(history + [x], id)
         == if x.key.ruleId == id then RecordsOf(history, id) + [x] else RecordsOf(history, id)
  {
    var longer := history + [x];
    assert longer[..|longer| - 1] == history;
  }

  lemma {:induction false} OtherViewsUntouched(book: Book, rules: seq<Rule>, r: Report, id: string)
    requires forall i :: 0 <= i < |rules| ==> rules[i].id != id
    ensures ViewOf(Evaluate(book, rules, r), id) == ViewOf(book, id)
    decreases |rules|
  {
    if rules != [] {
      RuleTouchesItsView(book, rules[0], r, id);
      OtherViewsUntouched(ApplyRule(book, rules[0], r), rules[1..], r, id);
    }
  }

  /** An evaluation changes the view of every registered rule by exactly one `ViewStep`,
      whatever the other rules do. */
  lemma {:induction false} EvaluateByRule(book: Book, rules: seq<Rule>, r: Report, k: nat)
    requires DistinctIds(rules) && k < |rules|
    ensures ViewOf(Evaluate(book, rules, r), rules[k].id) == ViewStep(ViewOf(book, rules[k].id), rules[k], r)
    decreases |rules|
  {
    var next := ApplyRule(book, rules[0], r);
    RuleTouchesItsView(book, rules[0], r, rules[k].id);
    assert forall i :: 0 <= i < |rules[1..]| ==> rules[1..][i] == rules[i + 1];
    if k == 0 {
      OtherViewsUntouched(next, rules[1..], r, rules[0].id);
    } else {
      EvaluateByRule(next, rules[1..], r, k - 1);
    }
  }

  /** After an evaluation: an applicable rule whose condition is false has no active alert;
      one whose condition is true has its key active exactly when it was active before or the
      throttle lets it through; a rule that does not apply is as it was. */
  lemma AfterEvaluation(book: Book, rules: seq<Rule>, r: Report, k: nat)
    requires DistinctIds(rules) && k < |rules|
    ensures var rule, after := rules[k], Evaluate(book, rules, r);
      && (!Applies(rule, r) ==> ViewOf(after, rule.id) == ViewOf(book, rule.id))
      && (Applies(rule, r) && !EvaluateCondition(rule, r.value) ==>
            forall key :: IsActive(after.history, key) ==> key.ruleId != rule.id)
      && (Applies(rule, r) && EvaluateCondition(rule, r.value) ==>
            (IsActive(after.history, KeyFor(rule, r)) <==>
               IsActive(book.history, KeyFor(rule, r)) || NotThrottled(rule, book.throttle, r.now)))
  {
    var rule, after := rules[k], Evaluate(book, rules, r);
    EvaluateByRule(book, rules, r, k);
    if Applies(rule, r) {
      if EvaluateCondition(rule, r.value) {
        ActiveInView(after.history, KeyFor(rule, r));
        ActiveInView(book.history, KeyFor(rule, r));
        RaisedInView(ViewOf(book, rule.id), rule, r);
      } else {
        forall key | IsActive(after.history, key) ensures key.ruleId != rule.id {
          ActiveInView(after.history, key);
          NoneActiveAfterResolve(ViewOf(book, rule.id).records, rule.id, r.now, key);
        }
      }
    }
  }

  lemma RaisedInView(v: View, rule: Rule, r: Report)
    requires Applies(rule, r) && EvaluateCondition(rule, r.value)
    ensures IsActive(ViewStep(v, rule, r).records, KeyFor(rule, r)) <==>
              || IsActive(v.records, KeyFor(rule, r))
              || (rule.throttle.Some? ==> Admits(LimiterOf(rule.throttle.value), v.window, r.now))
  {
    var w := ViewStep(v, rule, r);
    if w != v {
      assert w.records[|v.records|] == Record(KeyFor(rule, r), r.now, r.value, None);
    }
  }

  lemma NoneActiveAfterResolve(history: seq<Record>, id: string, now: real, key: AlertKey)
    ensures key.ruleId == id ==> !IsActive(ResolveAll(history, id, now), key)
  {
  }

  // ----- Whole runs and the throttle ----------------------------------------------------------------

  /** What happens to a manager: rules are registered, and metrics are reported. */
  datatype Event = Registered(more: seq<Rule>) | Reported(report: Report)

  datatype Desk = Desk(rules: seq<Rule>, book: Book)

  const EMPTY_DESK := Desk([], Book([], map[]))

  function Step(d: Desk, e: Event): Desk {
    match e
    case Registered(more) => d.(rules := PutAll(d.rules, more))
    case Reported(r) => d.(book := Evaluate(d.book, d.rules, r))
  }

  function Run(d: Desk, events: seq<Event>): Desk
    decreases |events|
  {
    if events == [] then d else Run(Step(d, events[0]), events[1..])
  }

  lemma {:induction false} PutAllKeepsDistinct(rules: seq<Rule>, more: seq<Rule>)
    requires DistinctIds(rules)
    ensures DistinctIds(PutAll(rules, more))
    decreases |more|
  {
    if more != [] {
      PutRuleIsMapSet(rules, more[0]);
      PutAllKeepsDistinct(PutRule(rules, more[0]), more[1..]);
    }
  }

  /** Whatever is registered and reported, no key ever has two active alerts, and rule ids stay
      distinct. */
  lemma {:induction false} RunKeepsOnePerKey(d: Desk, events: seq<Event>)
    requires OnePerKey(d.book.history) && DistinctIds(d.rules)
    ensures OnePerKey(Run(d, events).book.history) && DistinctIds(Run(d, events).rules)
    decreases |events|
  {
    if events != [] {
      match events[0] {
        case Registered(more) => PutAllKeepsDistinct(d.rules, more);
        case Reported(r) => EvaluateKeepsOnePerKey(d.book, d.rules, r);
      }
      RunKeepsOnePerKey(Step(d, events[0]), events[1..]);
    }
  }

  /** A report together with the rule that was registered under an id when it came. */
  datatype Sighting = Sighting(rule: Rule, report: Report)

  function RuleFor(rules: seq<Rule>, id: string): Option<Rule> {
    if rules == [] then None else if rules[0].id == id then Some(rules[0]) else RuleFor(rules[1..], id)
  }

  /** What a run shows to the rule of an id, in whatever versions it is registered. */
  function Sightings(rules: seq<Rule>, events: seq<Event>, id: string): seq<Sighting>
    decreases |events|
  {
    if events == [] then []
    else match events[0]
      case Registered(more) => Sightings(PutAll(rules, more), events[1..], id)
      case Reported(r) =>
        (match RuleFor(rules, id) case Some(rule) => [Sighting(rule, r)] case None => [])
          + Sightings(rules, events[1..], id)
  }

  function ViewRun(v: View, seen: seq<Sighting>): View
    decreases |seen|
  {
    if seen == [] then v else ViewRun(ViewStep(v, seen[0].rule, seen[0].report), seen[1..])
  }

  lemma {:induction false} RuleForFinds(rules: seq<Rule>, id: string)
    ensures RuleFor(rules, id) == None ==> forall i :: 0 <= i < |rules| ==> rules[i].id != id
    ensures RuleFor(rules, id).Some? ==> exists i :: 0 <= i < |rules| && rules[i] == RuleFor(rules, id).value
    ensures RuleFor(rules, id).Some? ==> RuleFor(rules, id).value.id == id
  {
    if rules != [] {
      RuleForFinds(rules[1..], id);
      if rules[0].id != id && RuleFor(rules, id).Some? {
        var i :| 0 <= i < |rules[1..]| && rules[1..][i] == RuleFor(rules, id).value;
        assert rules[i + 1] == RuleFor(rules, id).value;
      }
      if RuleFor(rules, id) == None {
        assert forall i :: 0 < i < |rules| ==> rules[i] == rules[1..][i - 1];
      }
    }
  }

  /** One evaluation, as the rule registered under an id sees it. */
  lemma EvaluateForId(book: Book, rules: seq<Rule>, r: Report, id: string)
    requires DistinctIds(rules)
    ensures ViewOf(Evaluate(book, rules, r), id)
         == match RuleFor(rules, id)
            case Some(rule) => ViewStep(ViewOf(book, id), rule, r)
            case None => ViewOf(book, id)
  {
    RuleForFinds(rules, id);
    if RuleFor(rules, id).Some? {
      var k :| 0 <= k < |rules| && rules[k] == RuleFor(rules, id).value;
      EvaluateByRule(book, rules, r, k);
    } else {
      OtherViewsUntouched(book, rules, r, id);
    }
  }

  /** In any run, with rules registered and replaced along the way, the records and the window of
      an id evolve as if its rule were alone. */
  lemma {:induction false} RunByRule(d: Desk, events: seq<Event>, id: string)
    requires DistinctIds(d.rules)
    ensures ViewOf(Run(d, events).book, id) == ViewRun(ViewOf(d.book, id), Sightings(d.rules, events, id))
    decreases |events|
  {
    hide ViewOf, ViewStep, Evaluate, RuleFor;
    if events != [] {
      match events[0] {
        case Registered(more) =>
          PutAllKeepsDistinct(d.rules, more);
          RunByRule(Step(d, events[0]), events[1..], id);
        case Reported(r) =>
          EvaluateForId(d.book, d.rules, r, id);
          RunByRule(Step(d, events[0]), events[1..], id);
          var rest := Sightings(d.rules, events[1..], id);
          match RuleFor(d.rules, id) {
            case Some(rule) => assert ([Sighting(rule, r)] + rest)[1..] == rest;
            case None => assert [] + rest == rest;
          }
      }
    }
  }

  /** How many alerts of the records were raised at times in the closed interval. */
  function RaisedWithin(records: seq<Record>, from: real, to: real): nat {
    if records == [] then 0
    else
      var last := records[|records| - 1];
      RaisedWithin(records[..|records| - 1], from, to) + (if from <= last.raisedAt <= to then 1 else 0)
  }

  lemma {:induction false} ResolvingKeepsRaised(records: seq<Record>, id: string, now: real, from: real, to: real)
    ensures RaisedWithin(ResolveAll(records, id, now), from, to) == RaisedWithin(records, from, to)
  {
    if records != [] {
      var n := |records| - 1;
      ResolvingKeepsRaised(records[..n], id, now, from, to);
      assert ResolveAll(records, id, now)[..n] == ResolveAll(records[..n], id, now);
    }
  }

  /** The rule asks the throttle for leave to raise an alert. */
  predicate Asks(v: View, x: Sighting) {
    && Applies(x.rule, x.report) && EvaluateCondition(x.rule, x.report.value)
    && !IsActive(v.records, KeyFor(x.rule, x.report))
  }

  /** The times at which it does. */
  function Attempts(v: View, seen: seq<Sighting>): seq<real>
    decreases |seen|
  {
    if seen == [] then []
    else
      (if Asks(v, seen[0]) then [seen[0].report.now] else [])
        + Attempts(ViewStep(v, seen[0].rule, seen[0].report), seen[1..])
  }

  /** The clock never goes back between sightings, and none comes before `from`. */
  predicate SightingsFrom(seen: seq<Sighting>, from: real)
    decreases |seen|
  {
    seen == [] || (from <= seen[0].report.now && SightingsFrom(seen[1..], seen[0].report.now))
  }

  lemma {:induction false} AttemptsMonotone(v: View, seen: seq<Sighting>, from: real)
    requires SightingsFrom(seen, from)
    ensures Monotone(Attempts(v, seen))
    ensures forall i :: 0 <= i < |Attempts(v, seen)| ==> from <= Attempts(v, seen)[i]
    decreases |seen|
  {
    hide ViewStep, Asks;
    if seen != [] {
      var rest, now := seen[1..], seen[0].report.now;
      var next := ViewStep(v, seen[0].rule, seen[0].report);
      AttemptsMonotone(next, rest, now);
      var tail, all := Attempts(next, rest), Attempts(v, seen);
      if Asks(v, seen[0]) {
        assert all == [now] + tail;
        assert forall i :: 0 < i < |all| ==> all[i] == tail[i - 1];
      } else {
        assert all == tail;
      }
    }
  }

  /** Every version of the rule that was sighted has the throttle `t`. */
  ghost predicate SameThrottle(seen: seq<Sighting>, t: Throttle) {
    forall i :: 0 <= i < |seen| ==> seen[i].rule.throttle == Some(t)
  }

  /** The alerts a throttled rule raises are those its limiter admits among its attempts. */
  lemma {:induction false} RaisedAreAdmitted(v: View, seen: seq<Sighting>, t: Throttle, from: real, to: real)
    requires SameThrottle(seen, t)
    ensures RaisedWithin(ViewRun(v, seen).records, from, to)
         == RaisedWithin(v.records, from, to) + Within(Trace(LimiterOf(t), v.window, Attempts(v, seen)), from, to)
    decreases |seen|
  {
    if seen != [] {
      var x, lim := seen[0], LimiterOf(t);
      var next := ViewStep(v, x.rule, x.report);
      assert forall i :: 0 <= i < |seen[1..]| ==> seen[1..][i] == seen[i + 1];
      RaisedAreAdmitted(next, seen[1..], t, from, to);
      var tail := Attempts(next, seen[1..]);
      ResolvingKeepsRaised(v.records, x.rule.id, x.report.now, from, to);
      if Asks(v, x) {
        AskedStep(v, x, t, tail, from, to);
        assert Attempts(v, seen) == [x.report.now] + tail;
      } else {
        assert Attempts(v, seen) == tail;
      }
    }
  }

  lemma AskedStep(v: View, x: Sighting, t: Throttle, tail: seq<real>, from: real, to: real)
    requires Asks(v, x) && x.rule.throttle == Some(t)
    ensures var lim, next := LimiterOf(t), ViewStep(v, x.rule, x.report);
      RaisedWithin(next.records, from, to) + Within(Trace(lim, next.window, tail), from, to)
        == RaisedWithin(v.records, from, to) + Within(Trace(lim, v.window, [x.report.now] + tail), from, to)
  {
    var lim, next, now := LimiterOf(t), ViewStep(v, x.rule, x.report), x.report.now;
    var all, w := [now] + tail, Next(lim, v.window, now);
    assert all[1..] == tail;
    var rest := Trace(lim, Some(w), tail);
    if Admits(lim, v.window, now) {
      assert Trace(lim, v.window, all) == [Admission(now, w.start)] + rest;
      assert ([Admission(now, w.start)] + rest)[1..] == rest;
      assert next.records[..|v.records|] == v.records;
    } else {
      assert w == v.window.value;
      assert Trace(lim, v.window, all) == [] + rest == rest;
    }
  }

  /** The clock never goes back between reports. */
  ghost predicate MonotoneEvents(events: seq<Event>) {
    forall i, j :: 0 <= i < j < |events| && events[i].Reported? && events[j].Reported? ==>
      events[i].report.now <= events[j].report.now
  }

  lemma SightingsFromEarlier(seen: seq<Sighting>, from: real, now: real)
    requires from <= now && SightingsFrom(seen, now)
    ensures SightingsFrom(seen, from)
  {
  }

  lemma {:induction false} SightingsMonotone(rules: seq<Rule>, events: seq<Event>, id: string, from: real)
    requires MonotoneEvents(events)
    requires forall i :: 0 <= i < |events| && events[i].Reported? ==> from <= events[i].report.now
    ensures SightingsFrom(Sightings(rules, events, id), from)
    decreases |events|
  {
    hide PutAll, RuleFor;
    if events != [] {
      var rest := events[1..];
      assert forall i :: 0 <= i < |rest| ==> rest[i] == events[i + 1];
      match events[0]
      case Registered(more) => SightingsMonotone(PutAll(rules, more), rest, id, from);
      case Reported(r) =>
        SightingsMonotone(rules, rest, id, r.now);
        var tail := Sightings(rules, rest, id);
        match RuleFor(rules, id)
        case Some(rule) => assert ([Sighting(rule, r)] + tail)[1..] == tail;
        case None =>
          assert [] + tail == tail;
          SightingsFromEarlier(tail, from, r.now);
    }
  }

  function EarliestReport(events: seq<Event>): real {
    if events == [] then 0.0
    else match events[0]
      case Registered(_) => EarliestReport(events[1..])
      case Reported(r) => r.now
  }

  lemma {:induction false} EarliestIsEarliest(events: seq<Event>)
    requires MonotoneEvents(events)
    ensures forall i :: 0 <= i < |events| && events[i].Reported? ==> EarliestReport(events) <= events[i].report.now
  {
    if events != [] && events[0].Registered? {
      assert forall i :: 0 <= i < |events[1..]| ==> events[1..][i] == events[i + 1];
      EarliestIsEarliest(events[1..]);
    }
  }

  /** Under a monotone clock, with rules registered and replaced along the way, any closed interval
      of one throttle period sees at most 2 * max(1, maxAlerts) alerts of a rule whose throttle
      stays the same. */
  lemma AlertsPerPeriod(events: seq<Event>, id: string, t: Throttle, from: real)
    requires SameThrottle(Sightings([], events, id), t)
    requires t.periodSeconds >= 0.0 && MonotoneEvents(events)
    ensures RaisedWithin(RecordsOf(Run(EMPTY_DESK, events).book.history, id), from, from + t.periodSeconds * 1000.0)
         <= 2 * (if t.maxAlerts < 1 then 1 else t.maxAlerts)
  {
    var v, seen := View([], None), Sightings([], events, id);
    EarliestIsEarliest(events);
    SightingsMonotone([], events, id, EarliestReport(events));
    hide Run, Sightings, SameThrottle, SightingsFrom, MonotoneEvents;
    RunByRule(EMPTY_DESK, events, id);
    ViewAlertsPerPeriod(seen, t, EarliestReport(events), from);
  }

  lemma ViewAlertsPerPeriod(seen: seq<Sighting>, t: Throttle, start: real, from: real)
    requires SameThrottle(seen, t) && SightingsFrom(seen, start) && t.periodSeconds >= 0.0
    ensures RaisedWithin(ViewRun(View([], None), seen).records, from, from + t.periodSeconds * 1000.0)
         <= 2 * (if t.maxAlerts < 1 then 1 else t.maxAlerts)
  {
    hide RaisedWithin, ViewRun, Attempts, Trace, Within, Monotone, SameThrottle, SightingsFrom;
    var lim, v := LimiterOf(t), View([], None);
    RaisedAreAdmitted(v, seen, t, from, from + lim.length);
    NoneRaised(from, from + lim.length);
    AttemptsMonotone(v, seen, start);
    LimiterSlidingBound(lim, Attempts(v, seen), from);
  }

  lemma NoneRaised(from: real, to: real)
    ensures RaisedWithin([], from, to) == 0
  {
  }
}

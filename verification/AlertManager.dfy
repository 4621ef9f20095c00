/** The alert manager: alert objects shared between the active map and the history, and
    changed in place. */
module AlertManager {
  import opened Wrappers
  import opened FixedWindow
  import opened AlertBook

  class Alert {
    const key: AlertKey
    const raisedAt: real
    const currentValue: real
    var resolved: bool
    var resolvedAt: real

    constructor (key: AlertKey, raisedAt: real, value: real)
      ensures this.key == key && this.raisedAt == raisedAt && this.currentValue == value && !resolved
    {
      this.key, this.raisedAt, this.currentValue := key, raisedAt, value;
      resolved, resolvedAt := false, 0.0;
    }

    ghost function Entry(): Record
      reads this
    {
      Record(key, raisedAt, currentValue, if resolved then Some(resolvedAt) else None)
    }
  }

  ghost function EntriesOf(alerts: seq<Alert>): seq<Record>
    reads alerts
  {
    seq(|alerts|, i requires 0 <= i < |alerts| reads alerts => alerts[i].Entry())
  }

  class Manager {
    var rules: seq<Rule>
    var activeAlerts: map<AlertKey, Alert>
    var alertHistory: seq<Alert>
    var throttleState: map<string, Window>

    constructor ()
      ensures Valid() && CurrentDesk() == EMPTY_DESK
    {
      rules, activeAlerts, alertHistory, throttleState := [], map[], [], map[];
    }

    ghost function Alerts(): set<Alert>
      reads this`alertHistory
    {
      set a | a in alertHistory
    }

    /** The active map holds exactly the unresolved objects of the history, under their keys. */
    ghost predicate Valid()
      reads this, alertHistory
    {
      && (forall i, j :: 0 <= i < j < |alertHistory| ==> alertHistory[i] != alertHistory[j])
      && (forall k :: k in activeAlerts ==>
            activeAlerts[k] in alertHistory && !activeAlerts[k].resolved && activeAlerts[k].key == k)
      && (forall a :: a in alertHistory && !a.resolved ==> a.key in activeAlerts && activeAlerts[a.key] == a)
    }

    ghost function Entries(): seq<Record>
      reads this`alertHistory, alertHistory
    {
      EntriesOf(alertHistory)
    }

    ghost function CurrentBook(): Book
      reads this`alertHistory, this`throttleState, alertHistory
    {
      Book(Entries(), throttleState)
    }

    ghost function CurrentDesk(): Desk
      reads this`rules, this`alertHistory, this`throttleState, alertHistory
    {
      Desk(rules, CurrentBook())
    }

    lemma ActiveIsUnresolved(key: AlertKey)
      requires Valid()
      ensures key in activeAlerts <==> IsActive(CurrentBook().history, key)
    {
      var h := CurrentBook().history;
      if key in activeAlerts {
        var i :| 0 <= i < |alertHistory| && alertHistory[i] == activeAlerts[key];
        assert h[i].key == key && h[i].resolvedAt == None;
      }
      if i :| 0 <= i < |h| && h[i].key == key && h[i].resolvedAt == None {
        assert alertHistory[i] in alertHistory && !alertHistory[i].resolved;
      }
    }

    /** `Map.set` on each rule in turn. */
    method RegisterRules(more: seq<Rule>)
      modifies this`rules
      ensures CurrentDesk() == Step(old(CurrentDesk()), Registered(more))
    {
      for n := 0 to |more|
        invariant PutAll(rules, more[n..]) == PutAll(old(rules), more)
      {
        assert more[n..][0] == more[n] && more[n..][1..] == more[n + 1..];
        var i := 0;
        while i < |rules| && rules[i].id != more[n].id
          invariant 0 <= i <= |rules|
          invariant forall j :: 0 <= j < i ==> rules[j].id != more[n].id
        {
          i := i + 1;
        }
        PutRuleAt(rules, more[n], i);
        rules := if i < |rules| then rules[i := more[n]] else rules + [more[n]];
      }
      assert more[|more|..] == [];
    }

    method TriggerAlert(rule: Rule, r: Report)
      requires Valid()
      modifies this`activeAlerts, this`alertHistory, this`throttleState
      ensures Valid() && CurrentBook() == Trigger(old(CurrentBook()), rule, r)
      ensures forall a :: a in Alerts() ==> a in old(Alerts()) || fresh(a)
    {
      var alertKey := KeyFor(rule, r);
      ActiveIsUnresolved(alertKey);
      if alertKey in activeAlerts { return; }
      if rule.throttle.Some? {
        var throttled := IsThrottled(rule.id, rule.throttle.value, r.now);
        if throttled { return; }
      }
      RaiseAlert(alertKey, r.now, r.value);
      if rule.throttle.Some? {
        UpdateThrottleState(rule.id, r.now);
      }
    }

    /** The new object goes into the active map and the history. */
    method RaiseAlert(alertKey: AlertKey, now: real, value: real)
      requires Valid() && alertKey !in activeAlerts
      modifies this`activeAlerts, this`alertHistory
      ensures Valid()
      ensures Entries() == old(Entries()) + [Record(alertKey, now, value, None)]
      ensures forall a :: a in Alerts() ==> a in old(Alerts()) || fresh(a)
    {
      var alert := new Alert(alertKey, now, value);
      activeAlerts := activeAlerts[alertKey := alert];
      alertHistory := alertHistory + [alert];
      assert Entries() == old(Entries()) + [alert.Entry()];
    }

    method IsThrottled(ruleId: string, throttle: Throttle, now: real) returns (throttled: bool)
      modifies this`throttleState
      ensures throttled == !Admits(LimiterOf(throttle), Lookup(old(throttleState), ruleId), now)
      ensures throttleState == if ruleId in old(throttleState)
          && Expired(LimiterOf(throttle), old(throttleState)[ruleId], now)
        then old(throttleState) - {ruleId} else old(throttleState)
    {
      if ruleId !in throttleState { return false; }
      var state := throttleState[ruleId];
      if now - state.start > throttle.periodSeconds * 1000.0 {
        throttleState := throttleState - {ruleId};
        return false;
      }
      throttled := state.count >= throttle.maxAlerts;
    }

    method UpdateThrottleState(ruleId: string, now: real)
      modifies this`throttleState
      ensures throttleState == old(throttleState)[ruleId :=
        if ruleId in old(throttleState) then old(throttleState)[ruleId].(count := old(throttleState)[ruleId].count + 1)
        else Window(now, 1)]
    {
      if ruleId !in throttleState {
        throttleState := throttleState[ruleId := Window(now, 1)];
      } else {
        var state := throttleState[ruleId];
        throttleState := throttleState[ruleId := state.(count := state.count + 1)];
      }
    }

    method ResolveAlert(ruleId: string, now: real)
      requires Valid()
      modifies this`activeAlerts, Alerts()
      ensures Valid() && alertHistory == old(alertHistory)
      ensures CurrentBook() == old(CurrentBook()).(history := ResolveAll(old(CurrentBook()).history, ruleId, now))
    {
      var alertsToResolve: set<AlertKey> := {};
      var unseen := activeAlerts.Keys;
      while unseen != {}
        invariant unseen <= activeAlerts.Keys
        invariant alertsToResolve == set k | k in activeAlerts && k !in unseen && k.ruleId == ruleId
        invariant forall k :: k in activeAlerts ==> activeAlerts[k] in alertHistory && activeAlerts[k].key == k
        invariant forall a :: a in alertHistory ==>
          if !old(a.resolved) && a.key !in unseen && a.key.ruleId == ruleId then a.resolved && a.resolvedAt == now
          else a.resolved == old(a.resolved) && a.resolvedAt == old(a.resolvedAt)
        invariant forall a :: a in alertHistory && !old(a.resolved) ==>
          a.key in activeAlerts && activeAlerts[a.key] == a
        invariant activeAlerts == old(activeAlerts)
        invariant forall k :: k in activeAlerts ==> activeAlerts[k].resolved ==> k !in unseen && k.ruleId == ruleId
        decreases unseen
      {
        var key :| key in unseen;
        unseen := unseen - {key};
        var alert := activeAlerts[key];
        if alert.key.ruleId == ruleId && !alert.resolved {
          alert.resolved := true;
          alert.resolvedAt := now;
          alertsToResolve := alertsToResolve + {key};
        }
      }
      activeAlerts := activeAlerts - alertsToResolve;
      assert CurrentBook().history == ResolveAll(old(CurrentBook()).history, ruleId, now) by {
        forall i | 0 <= i < |alertHistory|
          ensures alertHistory[i].Entry() == ResolveRecord(old(alertHistory[i].Entry()), ruleId, now)
        {
          assert alertHistory[i] in alertHistory;
        }
      }
    }

    method EvaluateMetric(r: Report)
      requires Valid()
      modifies this`activeAlerts, this`alertHistory, this`throttleState, Alerts()
      ensures Valid() && CurrentDesk() == Step(old(CurrentDesk()), Reported(r))
    {
      for i := 0 to |rules|
        invariant Valid()
        invariant forall a :: a in Alerts() ==> a in old(Alerts()) || fresh(a)
        invariant Evaluate(CurrentBook(), rules[i..], r) == Evaluate(old(CurrentBook()), rules, r)
      {
        var rule := rules[i];
        assert rules[i..][0] == rule && rules[i..][1..] == rules[i + 1..];
        ghost var before := CurrentBook();
        if Applies(rule, r) {
          if EvaluateCondition(rule, r.value) {
            TriggerAlert(rule, r);
          } else {
            ResolveAlert(rule.id, r.now);
          }
        }
        assert CurrentBook() == ApplyRule(before, rule, r);
      }
      assert rules[|rules|..] == [];
    }
  }
}

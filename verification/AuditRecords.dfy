/** Which entries the audit logger accepts, and when it sends them off, in terms of the steps of a run. */
module AuditRecords {
  import opened Wrappers
  import opened AuditProtocol

  // ----- The configuration in force ------------------------------------------------------------------

  /** The last value given for the field in the steps, or the default of a new logger. */
  ghost function EnabledAfter(steps: seq<Step>): bool {
    if steps == [] then true
    else match steps[|steps| - 1]
      case Configure(PartialConfig(Some(enabled), _, _)) => enabled
      case _ => EnabledAfter(steps[..|steps| - 1])
  }

  ghost function LevelAfter(steps: seq<Step>): LogLevel {
    if steps == [] then LevelAll
    else match steps[|steps| - 1]
      case Configure(PartialConfig(_, Some(level), _)) => level
      case _ => LevelAfter(steps[..|steps| - 1])
  }

  ghost function ShipperAfter(steps: seq<Step>): bool {
    if steps == [] then false
    else match steps[|steps| - 1]
      case Configure(PartialConfig(_, _, Some(shipper))) => shipper
      case _ => ShipperAfter(steps[..|steps| - 1])
  }

  lemma RunOneMore(steps: seq<Step>)
    requires steps != []
    ensures Run(START, steps) == Apply(Run(START, steps[..|steps| - 1]), steps[|steps| - 1])
  {
    var n := |steps| - 1;
    var last := [steps[n]];
    assert steps == steps[..n] + last;
    RunConcat(START, steps[..n], last);
    hide Apply;
    assert Run(Run(START, steps[..n]), last) == Run(Apply(Run(START, steps[..n]), steps[n]), last[1..]);
  }

  /** Each setting is the last one given for it, whatever else happened. */
  lemma {:induction false} ConfigInForce(steps: seq<Step>)
    ensures Run(START, steps).config == Config(EnabledAfter(steps), LevelAfter(steps), ShipperAfter(steps))
  {
    if steps != [] {
      ConfigInForce(steps[..|steps| - 1]);
      RunOneMore(steps);
      hide Run;
    }
  }

  // ----- What is accepted ------------------------------------------------------------------------------

  ghost function Rank(severity: Severity): nat {
    match severity case LowSeverity => 0 case MediumSeverity => 1 case HighSeverity => 2 case CriticalSeverity => 3
  }

  /** The least rank a level lets through. */
  ghost function LeastRank(level: LogLevel): nat {
    match level case LevelAll => 0 case LevelHigh => 2 case LevelCritical => 3
  }

  /** The entries logged while logging was enabled, with at least the rank the level in force asks for. */
  ghost function Wanted(steps: seq<Step>): seq<Entry> {
    if steps == [] then []
    else
      var before := steps[..|steps| - 1];
      match steps[|steps| - 1]
      case LogEntry(e) =>
        if EnabledAfter(before) && Rank(e.severity) >= LeastRank(LevelAfter(before)) then Wanted(before) + [e]
        else Wanted(before)
      case _ => Wanted(before)
  }

  /** In every run the accepted entries are exactly the wanted ones, in order. */
  lemma {:induction false} AcceptedExactly(steps: seq<Step>)
    ensures Run(START, steps).accepted == Wanted(steps)
  {
    hide Run, Apply, EnabledAfter, LevelAfter, ShipperAfter, Rank, LeastRank;
    if steps != [] {
      var before := steps[..|steps| - 1];
      AcceptedExactly(before);
      ConfigInForce(before);
      RunOneMore(steps);
      AcceptedByStep(Run(START, before), steps[|steps| - 1]);
    } else {
      NothingRun();
    }
  }

  lemma NothingRun()
    ensures Run(START, []) == START
  {
  }

  lemma AcceptedByStep(l: Logger, s: Step)
    ensures Apply(l, s).accepted ==
      if s.LogEntry? && l.config.enabled && Rank(s.entry.severity) >= LeastRank(l.config.logLevel)
      then l.accepted + [s.entry] else l.accepted
  {
  }

  /** So nothing wanted is lost: at every moment it is shipped, in flight or buffered, and nothing else is. */
  lemma WantedIsKept(steps: seq<Step>)
    ensures var l := Run(START, steps);
      multiset(Wanted(steps)) == multiset(l.shipped) + multiset(Flatten(l.inFlight)) + multiset(l.buffer)
  {
    AcceptedExactly(steps);
    NothingIsLost(steps);
  }

  // ----- When it is sent off ------------------------------------------------------------------------------

  /** What would go off with a flush at this step. */
  ghost function Due(l: Logger, s: Step): seq<Entry> {
    match s
    case LogEntry(e) =>
      if l.config.enabled && Rank(e.severity) >= LeastRank(l.config.logLevel) then l.buffer + [e] else l.buffer
    case _ => l.buffer
  }

  /** The step asks for a flush: a running timer fires, the logger shuts down, or an accepted entry
      makes a hundred. */
  ghost predicate AsksForFlush(l: Logger, s: Step) {
    || (s.FlushTick? && l.timers > 0)
    || s.Shutdown?
    || (s.LogEntry? && |Due(l, s)| > |l.buffer| && |Due(l, s)| >= 100)
  }

  /** A step other than a completion leaves what was in flight, and sends off all that is due if a flush
      is asked for, there is a shipper and anything to ship; otherwise it keeps it. */
  lemma SendsExactly(l: Logger, s: Step)
    requires !s.ShipSucceeds? && !s.ShipFails?
    ensures var m := Apply(l, s);
      && m.shipped == l.shipped
      && if AsksForFlush(l, s) && l.config.hasShipper && Due(l, s) != []
         then m.inFlight == l.inFlight + [Due(l, s)] && m.buffer == []
         else m.inFlight == l.inFlight && m.buffer == Due(l, s)
  {
  }

  /** As long as no shipper has been configured, everything accepted stays in the buffer. */
  lemma {:induction false} WithoutShipperKept(steps: seq<Step>)
    requires forall k :: 0 <= k <= |steps| ==> !ShipperAfter(steps[..k])
    ensures var l := Run(START, steps); l.shipped == [] && l.inFlight == [] && l.buffer == Wanted(steps)
  {
    hide Run, ShipperAfter, EnabledAfter, LevelAfter, Wanted, Apply;
    if steps == [] {
      NothingRun();
      AcceptedExactly(steps);
    } else {
      var n := |steps| - 1;
      var before := steps[..n];
      assert forall k :: 0 <= k <= n ==> before[..k] == steps[..k];
      WithoutShipperKept(before);
      AcceptedExactly(steps);
      AcceptedExactly(before);
      ConfigInForce(before);
      assert !ShipperAfter(steps[..n]);
      RunOneMore(steps);
      WithoutShipperStep(Run(START, before), steps[n]);
    }
  }

  lemma WithoutShipperStep(l: Logger, s: Step)
    requires !l.config.hasShipper && l.inFlight == [] && l.shipped == [] && l.buffer == l.accepted
    ensures var m := Apply(l, s); m.inFlight == [] && m.shipped == [] && m.buffer == m.accepted
  {
  }

  function LogAll(entries: seq<Entry>): seq<Step> {
    seq(|entries|, i requires 0 <= i < |entries| => LogEntry(entries[i]))
  }

  /** Entries that come in one after the other, with no timer firing, go off in batches of exactly one
      hundred, and the rest stays in the buffer. */
  lemma {:induction false} BatchesOfHundred(l: Logger, entries: seq<Entry>)
    requires l.config == Config(true, LevelAll, true) && |l.buffer| < 100
    ensures var m, all := Run(l, LogAll(entries)), |l.buffer| + |entries|;
      && |m.buffer| == all % 100 && |m.inFlight| == |l.inFlight| + all / 100 && m.shipped == l.shipped
      && l.inFlight <= m.inFlight
      && forall k :: |l.inFlight| <= k < |m.inFlight| ==> |m.inFlight[k]| == 100
    decreases |entries|
  {
    if entries != [] {
      var next := Apply(l, LogEntry(entries[0]));
      SendsExactly(l, LogEntry(entries[0]));
      assert LogAll(entries)[0] == LogEntry(entries[0]) && LogAll(entries)[1..] == LogAll(entries[1..]);
      assert next.config == l.config;
      BatchesOfHundred(next, entries[1..]);
    }
  }
}

/** The audit log's buffer as an asynchronous protocol: a flush takes the whole buffer, and
    completes later, in any order relative to other flushes and to new entries. */
module AuditProtocol {
  import opened Wrappers

  datatype Severity = LowSeverity | MediumSeverity | HighSeverity | CriticalSeverity

  datatype LogLevel = LevelAll | LevelHigh | LevelCritical

  /** Only what the buffer protocol looks at; `id` is the entry's random UUID. */
  datatype Entry = Entry(id: nat, severity: Severity)

  datatype Config = Config(enabled: bool, logLevel: LogLevel, hasShipper: bool)

  /** What `initialize` is given: only some of the fields. */
  datatype PartialConfig = PartialConfig(enabled: Option<bool>, logLevel: Option<LogLevel>, hasShipper: Option<bool>)

  /** `{ ...config, ...partial }` */
  function Merge(config: Config, partial: PartialConfig): Config {
    Config(if partial.enabled.Some? then partial.enabled.value else config.enabled,
           if partial.logLevel.Some? then partial.logLevel.value else config.logLevel,
           if partial.hasShipper.Some? then partial.hasShipper.value else config.hasShipper)
  }

  /** `inFlight` holds the batches of flushes that have started and not completed, oldest first;
      `timers` counts the running flush intervals, and `armed` says that the logger holds the handle
      of the latest one. */
  datatype Logger = Logger(config: Config, buffer: seq<Entry>, inFlight: seq<seq<Entry>>,
                           shipped: seq<Entry>, accepted: seq<Entry>, timers: nat, armed: bool)

  const BUFFER_SIZE := 100

  const START := Logger(Config(true, LevelAll, false), [], [], [], [], 0, false)

  datatype Step =
    | Configure(partial: PartialConfig)
    | LogEntry(entry: Entry)
    | FlushTick
    | Shutdown
    | ShipSucceeds(k: nat)
    | ShipFails(k: nat)

  predicate ShouldLog(level: LogLevel, severity: Severity) {
    match level
    case LevelAll => true
    case LevelHigh => severity.HighSeverity? || severity.CriticalSeverity?
    case LevelCritical => severity.CriticalSeverity?
  }

  function BeginFlush(l: Logger): Logger {
    if l.buffer == [] || !l.config.hasShipper then l
    else l.(buffer := [], inFlight := l.inFlight + [l.buffer])
  }

  function Log(l: Logger, e: Entry): Logger {
    if !l.config.enabled || !ShouldLog(l.config.logLevel, e.severity) then l
    else
      var m := l.(buffer := l.buffer + [e], accepted := l.accepted + [e]);
      if |m.buffer| >= BUFFER_SIZE then BeginFlush(m) else m
  }

  function WithoutBatch(batches: seq<seq<Entry>>, k: nat): seq<seq<Entry>>
    requires k < |batches|
  {
    batches[..k] + batches[k + 1..]
  }

  function Succeed(l: Logger, k: nat): Logger
    requires k < |l.inFlight|
  {
    l.(inFlight := WithoutBatch(l.inFlight, k), shipped := l.shipped + l.inFlight[k])
  }

  /** A failed batch goes back to the front of the buffer. */
  function Fail(l: Logger, k: nat): Logger
    requires k < |l.inFlight|
  {
    l.(inFlight := WithoutBatch(l.inFlight, k), buffer := l.inFlight[k] + l.buffer)
  }

  /** A timer is started whenever logging is enabled, whether or not one is running. */
  function Configured(l: Logger, partial: PartialConfig): Logger {
    var m := l.(config := Merge(l.config, partial));
    if m.config.enabled then m.(timers := m.timers + 1, armed := true) else m
  }

  /** Clears the interval whose handle is held. */
  function Disarm(l: Logger): Logger {
    if l.armed then l.(timers := if l.timers > 0 then l.timers - 1 else 0, armed := false) else l
  }

  function Apply(l: Logger, s: Step): Logger {
    match s
    case Configure(p) => Configured(l, p)
    case LogEntry(e) => Log(l, e)
    case FlushTick => if l.timers > 0 then BeginFlush(l) else l
    case Shutdown => BeginFlush(Disarm(l))
    case ShipSucceeds(k) => if k < |l.inFlight| then Succeed(l, k) else l
    case ShipFails(k) => if k < |l.inFlight| then Fail(l, k) else l
  }

  function Run(l: Logger, steps: seq<Step>): Logger
    decreases |steps|
  {
    if steps == [] then l else Run(Apply(l, steps[0]), steps[1..])
  }

  // ----- Conservation -------------------------------------------------------------------------

  function Flatten(batches: seq<seq<Entry>>): seq<Entry>
    decreases |batches|
  {
    if batches == [] then [] else batches[0] + Flatten(batches[1..])
  }

  lemma {:induction false} FlattenConcat(a: seq<seq<Entry>>, b: seq<seq<Entry>>)
    ensures Flatten(a + b) == Flatten(a) + Flatten(b)
    decreases |a|
  {
    if a == [] {
      assert a + b == b;
    } else {
      assert (a + b)[1..] == a[1..] + b;
      FlattenConcat(a[1..], b);
    }
  }

  lemma FlattenOne(batch: seq<Entry>)
    ensures Flatten([batch]) == batch
  {
    assert [batch][1..] == [];
    assert batch + [] == batch;
  }

  lemma FlattenSplit(batches: seq<seq<Entry>>, k: nat)
    requires k < |batches|
    ensures multiset(Flatten(batches)) == multiset(Flatten(WithoutBatch(batches, k))) + multiset(batches[k])
  {
    hide Flatten;
    var a, x, b := batches[..k], batches[k], batches[k + 1..];
    assert batches == a + ([x] + b);
    FlattenConcat(a, [x] + b);
    FlattenConcat([x], b);
    FlattenOne(x);
    FlattenConcat(a, b);
    MiddleMoves(Flatten(a), x, Flatten(b));
  }

  lemma MiddleMoves(a: seq<Entry>, x: seq<Entry>, b: seq<Entry>)
    ensures multiset(a + (x + b)) == multiset(a + b) + multiset(x)
  {
  }

  /** Nothing accepted is lost or duplicated. */
  ghost predicate Conserved(l: Logger) {
    multiset(l.accepted) == multiset(l.shipped) + multiset(Flatten(l.inFlight)) + multiset(l.buffer)
  }

  lemma FlushConserves(l: Logger)
    requires Conserved(l)
    ensures Conserved(BeginFlush(l))
  {
    FlattenConcat(l.inFlight, [l.buffer]);
    FlattenOne(l.buffer);
  }

  lemma LogConserves(l: Logger, e: Entry)
    requires Conserved(l)
    ensures Conserved(Log(l, e))
  {
    hide Flatten;
    FlushConserves(l.(buffer := l.buffer + [e], accepted := l.accepted + [e]));
  }

  lemma CompletionConserves(l: Logger, k: nat)
    requires Conserved(l) && k < |l.inFlight|
    ensures Conserved(Succeed(l, k)) && Conserved(Fail(l, k))
  {
    hide Flatten, WithoutBatch;
    FlattenSplit(l.inFlight, k);
  }

  lemma StepConserves(l: Logger, s: Step)
    requires Conserved(l)
    ensures Conserved(Apply(l, s))
  {
    hide Conserved, Log, BeginFlush, Succeed, Fail, Merge;
    match s {
      case Configure(p) => SameBooks(l, Configured(l, p));
      case LogEntry(e) => LogConserves(l, e);
      case FlushTick => FlushConserves(l);
      case Shutdown =>
        SameBooks(l, Disarm(l));
        FlushConserves(Disarm(l));
      case ShipSucceeds(k) => if k < |l.inFlight| { CompletionConserves(l, k); }
      case ShipFails(k) => if k < |l.inFlight| { CompletionConserves(l, k); }
    }
  }

  lemma SameBooks(l: Logger, m: Logger)
    requires Conserved(l)
    requires m.accepted == l.accepted && m.shipped == l.shipped && m.inFlight == l.inFlight && m.buffer == l.buffer
    ensures Conserved(m)
  {
  }

  /** In every interleaving of logging, flushing, success and failure, with overlapping flushes. */
  lemma {:induction false} EveryRunConserves(l: Logger, steps: seq<Step>)
    requires Conserved(l)
    ensures Conserved(Run(l, steps))
    decreases |steps|
  {
    if steps != [] {
      StepConserves(l, steps[0]);
      EveryRunConserves(Apply(l, steps[0]), steps[1..]);
    }
  }

  /** From a new logger on, nothing accepted is ever lost or duplicated. */
  lemma NothingIsLost(steps: seq<Step>)
    ensures Conserved(Run(START, steps))
  {
    EveryRunConserves(START, steps);
  }

  // ----- Order ----------------------------------------------------------------------------------

  /** What has been shipped, then what is in flight, then the buffer, is the log in order. */
  ghost predicate InOrder(l: Logger) {
    l.accepted == l.shipped + Flatten(l.inFlight) + l.buffer
  }

  /** No flush starts while another is in flight. */
  ghost predicate NoOverlap(l: Logger, steps: seq<Step>)
    decreases |steps|
  {
    |l.inFlight| <= 1 && (steps != [] ==> NoOverlap(Apply(l, steps[0]), steps[1..]))
  }

  lemma FlushKeepsOrder(l: Logger)
    requires InOrder(l)
    ensures InOrder(BeginFlush(l))
  {
    if BeginFlush(l) != l {
      FlattenConcat(l.inFlight, [l.buffer]);
      FlattenOne(l.buffer);
      Regroup(l.shipped, Flatten(l.inFlight), l.buffer);
    }
  }

  lemma Regroup(a: seq<Entry>, b: seq<Entry>, c: seq<Entry>)
    ensures a + b + c == a + (b + c) + []
  {
  }

  lemma StepKeepsOrder(l: Logger, s: Step)
    requires InOrder(l) && |l.inFlight| <= 1
    ensures InOrder(Apply(l, s))
  {
    match s {
      case Configure(_) =>
      case LogEntry(e) =>
        assert (l.shipped + Flatten(l.inFlight) + l.buffer) + [e] == l.shipped + Flatten(l.inFlight) + (l.buffer + [e]);
        FlushKeepsOrder(l.(buffer := l.buffer + [e], accepted := l.accepted + [e]));
      case FlushTick => FlushKeepsOrder(l);
      case Shutdown => FlushKeepsOrder(Disarm(l));
      case ShipSucceeds(k) =>
        if k < |l.inFlight| {
          OnlyBatch(l);
          assert l.shipped + l.inFlight[0] + l.buffer == (l.shipped + l.inFlight[0]) + [] + l.buffer;
        }
      case ShipFails(k) =>
        if k < |l.inFlight| {
          OnlyBatch(l);
          assert l.shipped + l.inFlight[0] + l.buffer == l.shipped + [] + (l.inFlight[0] + l.buffer);
        }
    }
  }

  lemma OnlyBatch(l: Logger)
    requires |l.inFlight| == 1
    ensures Flatten(l.inFlight) == l.inFlight[0] && Flatten(WithoutBatch(l.inFlight, 0)) == []
  {
    assert l.inFlight == [l.inFlight[0]];
    FlattenOne(l.inFlight[0]);
    assert WithoutBatch(l.inFlight, 0) == [];
  }

  /** If flushes never overlap, shipped then in-flight then buffer is exactly the log order. */
  lemma {:induction false} WithoutOverlapOrderIsKept(l: Logger, steps: seq<Step>)
    requires InOrder(l) && NoOverlap(l, steps)
    ensures InOrder(Run(l, steps))
    decreases |steps|
  {
    if steps != [] {
      StepKeepsOrder(l, steps[0]);
      WithoutOverlapOrderIsKept(Apply(l, steps[0]), steps[1..]);
    }
  }

  ghost predicate Distinct(s: seq<Entry>) {
    forall i, j :: 0 <= i < j < |s| ==> s[i] != s[j]
  }

  ghost predicate NonEmptyBatches(batches: seq<seq<Entry>>) {
    forall k :: 0 <= k < |batches| ==> batches[k] != []
  }

  // ----- Which completions keep the order ---------------------------------------------------------

  /** The log as laid out around the k-th batch in flight. */
  lemma AroundBatch(l: Logger, k: nat)
    requires k < |l.inFlight|
    ensures var a, x, b := Flatten(l.inFlight[..k]), l.inFlight[k], Flatten(l.inFlight[k + 1..]);
      && Flatten(l.inFlight) == a + x + b
      && Flatten(WithoutBatch(l.inFlight, k)) == a + b
  {
    hide Flatten;
    var a, x, b := l.inFlight[..k], l.inFlight[k], l.inFlight[k + 1..];
    assert l.inFlight == a + ([x] + b);
    FlattenConcat(a, [x] + b);
    FlattenConcat([x], b);
    FlattenOne(x);
    FlattenConcat(a, b);
    assert Flatten(a) + (x + Flatten(b)) == Flatten(a) + x + Flatten(b);
  }

  /** Non-empty batches flatten to nothing only if there are none. */
  lemma FlattenEmpty(batches: seq<seq<Entry>>)
    requires NonEmptyBatches(batches)
    ensures Flatten(batches) == [] <==> batches == []
  {
    if batches != [] {
      assert batches[0] != [];
    }
  }

  /** Moving a block of a sequence of distinct entries over another leaves the sequence as it was
      if and only if one of the two is empty. */
  lemma SwapChanges(p: seq<Entry>, a: seq<Entry>, x: seq<Entry>, q: seq<Entry>)
    requires Distinct(p + a + x + q)
    ensures p + a + x + q == p + x + a + q <==> a == [] || x == []
  {
    if a == [] {
      assert p + a == p && x + a == x && p + x + a == p + x;
    } else if x == [] {
      assert p + a + x == p + a && p + x == p;
    } else {
      var s, n := p + a + x + q, |p|;
      assert s[n] == a[0] && s[n + |a|] == x[0];
      assert (p + x + a + q)[n] == x[0];
    }
  }

  lemma RegroupAround(p: seq<Entry>, a: seq<Entry>, x: seq<Entry>, b: seq<Entry>, q: seq<Entry>)
    ensures p + (a + x + b) + q == p + a + x + (b + q) == (p + a) + x + b + q
    ensures (p + x) + (a + b) + q == p + x + a + (b + q)
    ensures p + (a + b) + (x + q) == (p + a) + b + x + q
  {
  }

  /** A successful completion keeps the order if and only if it is of the oldest batch. */
  lemma SuccessInOrderExactly(l: Logger, k: nat)
    requires InOrder(l) && Distinct(l.accepted) && NonEmptyBatches(l.inFlight) && k < |l.inFlight|
    ensures InOrder(Succeed(l, k)) <==> k == 0
  {
    AroundBatch(l, k);
    FlattenEmpty(l.inFlight[..k]);
    var a, x, b := Flatten(l.inFlight[..k]), l.inFlight[k], Flatten(l.inFlight[k + 1..]);
    hide Flatten, Distinct, NonEmptyBatches;
    RegroupAround(l.shipped, a, x, b, l.buffer);
    SwapChanges(l.shipped, a, x, b + l.buffer);
  }

  /** A failed completion keeps the order if and only if it is of the newest batch. */
  lemma FailureInOrderExactly(l: Logger, k: nat)
    requires InOrder(l) && Distinct(l.accepted) && NonEmptyBatches(l.inFlight) && k < |l.inFlight|
    ensures InOrder(Fail(l, k)) <==> k == |l.inFlight| - 1
  {
    AroundBatch(l, k);
    FlattenEmpty(l.inFlight[k + 1..]);
    var a, x, b := Flatten(l.inFlight[..k]), l.inFlight[k], Flatten(l.inFlight[k + 1..]);
    hide Flatten, Distinct, NonEmptyBatches;
    RegroupAround(l.shipped, a, x, b, l.buffer);
    SwapChanges(l.shipped + a, x, b, l.buffer);
  }

  /** A completion in turn: the oldest batch succeeds or the newest fails.  Every other step is. */
  predicate InTurn(l: Logger, s: Step) {
    match s
    case ShipSucceeds(k) => k < |l.inFlight| ==> k == 0
    case ShipFails(k) => k < |l.inFlight| ==> k == |l.inFlight| - 1
    case _ => true
  }

  lemma StepInOrderExactly(l: Logger, s: Step)
    requires InOrder(l) && Distinct(l.accepted) && NonEmptyBatches(l.inFlight)
    ensures InOrder(Apply(l, s)) <==> InTurn(l, s)
  {
    match s {
      case Configure(_) =>
      case LogEntry(e) =>
        assert (l.shipped + Flatten(l.inFlight) + l.buffer) + [e] == l.shipped + Flatten(l.inFlight) + (l.buffer + [e]);
        FlushKeepsOrder(l.(buffer := l.buffer + [e], accepted := l.accepted + [e]));
      case FlushTick => FlushKeepsOrder(l);
      case Shutdown => FlushKeepsOrder(Disarm(l));
      case ShipSucceeds(k) => if k < |l.inFlight| { SuccessInOrderExactly(l, k); }
      case ShipFails(k) => if k < |l.inFlight| { FailureInOrderExactly(l, k); }
    }
  }

  lemma StepKeepsBatches(l: Logger, s: Step)
    requires NonEmptyBatches(l.inFlight)
    ensures NonEmptyBatches(Apply(l, s).inFlight)
    ensures l.accepted <= Apply(l, s).accepted
  {
  }

  lemma {:induction false} RunAccepts(l: Logger, steps: seq<Step>)
    ensures l.accepted <= Run(l, steps).accepted
    decreases |steps|
  {
    if steps != [] {
      RunAccepts(Apply(l, steps[0]), steps[1..]);
    }
  }

  /** Every state of the run has the log in order. */
  ghost predicate OrderThroughout(l: Logger, steps: seq<Step>)
    decreases |steps|
  {
    InOrder(l) && (steps != [] ==> OrderThroughout(Apply(l, steps[0]), steps[1..]))
  }

  /** Every completion of the run is in turn. */
  predicate TurnsThroughout(l: Logger, steps: seq<Step>)
    decreases |steps|
  {
    steps != [] ==> InTurn(l, steps[0]) && TurnsThroughout(Apply(l, steps[0]), steps[1..])
  }

  lemma {:induction false} OrderFromExactly(l: Logger, steps: seq<Step>)
    requires InOrder(l) && NonEmptyBatches(l.inFlight) && Distinct(Run(l, steps).accepted)
    ensures OrderThroughout(l, steps) <==> TurnsThroughout(l, steps)
    decreases |steps|
  {
    RunAccepts(l, steps);
    assert Distinct(l.accepted);
    if steps != [] {
      var next := Apply(l, steps[0]);
      StepInOrderExactly(l, steps[0]);
      StepKeepsBatches(l, steps[0]);
      hide InOrder, InTurn, Apply, NonEmptyBatches;
      if InOrder(next) {
        OrderFromExactly(next, steps[1..]);
      }
    }
  }

  /** In every run of distinct entries, however flushes overlap: shipped, then in flight, then
      buffer is the log order throughout if and only if the oldest batch is always the one to
      succeed and the newest always the one to fail. */
  lemma OrderKeptExactly(steps: seq<Step>)
    requires Distinct(Run(START, steps).accepted)
    ensures OrderThroughout(START, steps) <==> TurnsThroughout(START, steps)
  {
    OrderFromExactly(START, steps);
  }

  /** The next completion keeps the order whichever batch completes and however it ends. */
  ghost predicate NextCompletionSafe(l: Logger) {
    forall k: nat :: k < |l.inFlight| ==> CompletionSafe(l, k)
  }

  ghost predicate CompletionSafe(l: Logger, k: nat)
    requires k < |l.inFlight|
  {
    InOrder(Succeed(l, k)) && InOrder(Fail(l, k))
  }

  /** With at most one batch in flight, and only then, every possible next completion keeps the order. */
  lemma OrderSafeExactly(l: Logger)
    requires InOrder(l) && Distinct(l.accepted) && NonEmptyBatches(l.inFlight)
    ensures NextCompletionSafe(l) <==> |l.inFlight| <= 1
  {
    forall k: nat | k < |l.inFlight|
      ensures InOrder(Succeed(l, k)) <==> k == 0
      ensures InOrder(Fail(l, k)) <==> k == |l.inFlight| - 1
    {
      SuccessInOrderExactly(l, k);
      FailureInOrderExactly(l, k);
    }
    hide InOrder;
    if |l.inFlight| >= 2 {
      assert !CompletionSafe(l, 1);
    }
  }

  /** When the second batch in flight ships first, its entries precede older ones. */
  lemma LaterShipsFirst(l: Logger)
    requires InOrder(l) && Distinct(l.accepted) && |l.inFlight| >= 2
    requires l.inFlight[0] != [] && l.inFlight[1] != []
    ensures !InOrder(Succeed(l, 1))
  {
    var t := Succeed(l, 1);
    var first, second := l.inFlight[0], l.inFlight[1];
    assert l.inFlight[1..][0] == second;
    var n := |l.shipped|;
    assert Flatten(l.inFlight) == first + (second + Flatten(l.inFlight[1..][1..]));
    assert l.accepted[n] == first[0];
    assert l.accepted[n + |first|] == second[0];
    assert (t.shipped + Flatten(t.inFlight) + t.buffer)[n] == second[0];
  }

  // ----- Flush timers ------------------------------------------------------------------------------

  /** How many of the steps' enabled initializations lose the handle of a running timer. */
  function Leaked(config: Config, armed: bool, steps: seq<Step>): nat
    decreases |steps|
  {
    if steps == [] then 0
    else match steps[0]
      case Configure(p) =>
        var next := Merge(config, p);
        (if next.enabled && armed then 1 else 0) + Leaked(next, armed || next.enabled, steps[1..])
      case Shutdown => Leaked(config, false, steps[1..])
      case _ => Leaked(config, armed, steps[1..])
  }

  lemma {:induction false} TimersLeak(l: Logger, steps: seq<Step>)
    requires l.armed ==> l.timers > 0
    ensures var m := Run(l, steps);
      && (m.armed ==> m.timers > 0)
      && m.timers - (if m.armed then 1 else 0)
           == l.timers - (if l.armed then 1 else 0) + Leaked(l.config, l.armed, steps)
    decreases |steps|
  {
    if steps != [] {
      TimersLeak(Apply(l, steps[0]), steps[1..]);
    }
  }

  /** After any run, shutting down stops all timers if and only if logging was never initialized,
      enabled, while a timer was running already. */
  lemma ShutdownStopsTimersExactly(steps: seq<Step>)
    ensures Run(START, steps + [Shutdown]).timers == 0 <==> Leaked(START.config, false, steps) == 0
  {
    TimersLeak(START, steps);
    RunConcat(START, steps, [Shutdown]);
    assert [Shutdown][1..] == [];
    assert Run(Run(START, steps), [Shutdown]) == Apply(Run(START, steps), Shutdown);
  }

  lemma {:induction false} RunConcat(l: Logger, a: seq<Step>, b: seq<Step>)
    ensures Run(l, a + b) == Run(Run(l, a), b)
    decreases |a|
  {
    hide Apply;
    if a == [] {
      assert a + b == b;
    } else {
      assert (a + b)[1..] == a[1..] + b;
      RunConcat(Apply(l, a[0]), a[1..], b);
    }
  }

  /** Two initializations and a shutdown leave a timer running. */
  lemma TimerOutlivesShutdown()
    ensures Run(START, [SHIPPING, SHIPPING] + [Shutdown]).timers == 1
  {
    assert [SHIPPING, SHIPPING][1..] == [SHIPPING] && [SHIPPING][1..] == [];
    TimersLeak(START, [SHIPPING, SHIPPING]);
    RunConcat(START, [SHIPPING, SHIPPING], [Shutdown]);
    assert [Shutdown][1..] == [];
    var l := Run(START, [SHIPPING, SHIPPING]);
    assert l == Configured(Configured(START, SHIPPING.partial), SHIPPING.partial) by {
      assert Run(START, [SHIPPING, SHIPPING]) == Run(Configured(START, SHIPPING.partial), [SHIPPING]);
    }
    assert Run(l, [Shutdown]) == Apply(l, Shutdown);
  }

  // ----- A log shipped out of order ------------------------------------------------------------------

  const SHIPPING := Configure(PartialConfig(None, None, Some(true)))
  const FIRST := Entry(1, LowSeverity)
  const SECOND := Entry(2, LowSeverity)

  /** Log, flush, log, flush, and the second flush completes first. */
  lemma SecondShippedFirst()
    ensures var l := Run(START, [SHIPPING, LogEntry(FIRST), FlushTick, LogEntry(SECOND), FlushTick, ShipSucceeds(1)]);
      && l.accepted == [FIRST, SECOND] && l.shipped == [SECOND] && l.inFlight == [[FIRST]] && l.buffer == []
      && !InOrder(l)
  {
    var on := Config(true, LevelAll, true);
    var a := START.(config := on, timers := 1, armed := true);
    var b := a.(buffer := [FIRST], accepted := [FIRST]);
    var c := b.(buffer := [], inFlight := [[FIRST]]);
    var d := c.(buffer := [SECOND], accepted := [FIRST, SECOND]);
    var e := d.(buffer := [], inFlight := [[FIRST], [SECOND]]);
    var l := e.(inFlight := [[FIRST]], shipped := [SECOND]);
    assert [] + [FIRST] == [FIRST] && [FIRST] + [SECOND] == [FIRST, SECOND] && [] + [SECOND] == [SECOND];
    assert [] + [[FIRST]] == [[FIRST]] && [[FIRST]] + [[SECOND]] == [[FIRST], [SECOND]];
    assert Merge(START.config, SHIPPING.partial) == on && Configured(START, SHIPPING.partial) == a;
    assert Log(a, FIRST) == b && BeginFlush(b) == c && Log(c, SECOND) == d && BeginFlush(d) == e;
    assert WithoutBatch([[FIRST], [SECOND]], 1) == [[FIRST]];
    assert Succeed(e, 1) == l;
    hide Apply;
    RunSix(START, SHIPPING, LogEntry(FIRST), FlushTick, LogEntry(SECOND), FlushTick, ShipSucceeds(1));
    FlattenOne(FIRST_BATCH);
    assert l.shipped + [FIRST] + l.buffer == [SECOND, FIRST];
  }

  const FIRST_BATCH := [FIRST]

  lemma RunSix(l: Logger, a: Step, b: Step, c: Step, d: Step, e: Step, f: Step)
    ensures Run(l, [a, b, c, d, e, f]) == Apply(Apply(Apply(Apply(Apply(Apply(l, a), b), c), d), e), f)
  {
    RunThree(l, a, b, c, [d, e, f]);
    RunThree(Apply(Apply(Apply(l, a), b), c), d, e, f, []);
    assert [a, b, c] + [d, e, f] == [a, b, c, d, e, f] && [d, e, f] + [] == [d, e, f];
  }

  lemma RunThree(l: Logger, a: Step, b: Step, c: Step, rest: seq<Step>)
    ensures Run(l, [a, b, c] + rest) == Run(Apply(Apply(Apply(l, a), b), c), rest)
  {
    hide Apply;
    assert ([a, b, c] + rest)[1..] == [b, c] + rest;
    assert ([b, c] + rest)[1..] == [c] + rest;
    assert ([c] + rest)[1..] == rest;
    assert Run(Apply(l, a), [b, c] + rest) == Run(Apply(Apply(l, a), b), [c] + rest);
  }
}

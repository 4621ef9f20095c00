/** The MCP stdio session as a state machine over the events that reach the client:
    requests sent, output chunks, process failure, process exit and disconnection,
    interleaved in any order.  `decode` stands for trimming a line and parsing it as a
    JSON-RPC response; it gives None for blank lines, text that is no JSON, and messages
    whose id cannot be the key of a pending request. */
module McpSession {
  import opened Wrappers
  import opened LineFraming
  import opened Sequences

  datatype Reason = ErrorResponse(code: int, message: string) | ProcessError | Exited | Disconnected

  datatype Outcome = Resolved(result: string) | Rejected(reason: Reason)

  datatype RpcError = RpcError(code: int, message: string)

  datatype Message = Message(id: nat, error: Option<RpcError>, result: string)

  type Decoder = string -> Option<Message>

  /** One call of a request's `resolve` or `reject`. */
  datatype Settlement = Settlement(id: nat, outcome: Outcome)

  /** `pending` lists the keys of the pending map as they were inserted; `settled` records
      every `resolve` and `reject` call in the order in which they were made. */
  datatype Session = Session(counter: nat, pending: seq<nat>, buffer: string,
                             alive: bool, connected: bool, settled: seq<Settlement>)

  const START := Session(0, [], "", false, false, [])

  datatype Event =
    | Spawn                // connect(): a new process and the initialize request
    | Ready                // connect(): the initialize response has been accepted
    | Call                 // listTools() or callTool()
    | Data(chunk: string)
    | Failure              // the process emits "error"
    | Exit
    | Disconnect

  // ----- Handlers ------------------------------------------------------------------------

  function Send(s: Session): Session {
    if s.alive then s.(counter := s.counter + 1, pending := s.pending + [s.counter + 1]) else s
  }

  function OutcomeOf(m: Message): Outcome {
    match m.error
    case Some(e) => Rejected(ErrorResponse(e.code, e.message))
    case None => Resolved(m.result)
  }

  function HandleResponse(s: Session, m: Message): Session {
    if m.id !in s.pending then s
    else s.(pending := Without(s.pending, m.id), settled := s.settled + [Settlement(m.id, OutcomeOf(m))])
  }

  function HandleLine(decode: Decoder, s: Session, line: string): Session {
    match decode(line)
    case Some(m) => HandleResponse(s, m)
    case None => s
  }

  function HandleLines(decode: Decoder, s: Session, lines: seq<string>): Session
    decreases |lines|
  {
    if lines == [] then s else HandleLines(decode, HandleLine(decode, s, lines[0]), lines[1..])
  }

  function OnData(decode: Decoder, s: Session, chunk: string): Session {
    var framed := Feed(s.buffer, chunk);
    HandleLines(decode, s.(buffer := framed.rest), framed.lines)
  }

  function RejectEach(pending: seq<nat>, reason: Reason): seq<Settlement> {
    if pending == [] then [] else [Settlement(pending[0], Rejected(reason))] + RejectEach(pending[1..], reason)
  }

  function RejectAll(s: Session, reason: Reason): Session {
    s.(pending := [], settled := s.settled + RejectEach(s.pending, reason))
  }

  function Step(decode: Decoder, s: Session, e: Event): Session {
    match e
    case Spawn => if s.connected then s else Send(s.(alive := true))
    case Ready => s.(connected := true)
    case Call => if s.connected && s.alive then Send(s) else s
    case Data(chunk) => OnData(decode, s, chunk)
    case Failure => RejectAll(s, ProcessError)
    case Exit => RejectAll(s, Exited).(connected := false)
    case Disconnect => RejectAll(s.(alive := false, connected := false), Disconnected)
  }

  function Run(decode: Decoder, s: Session, es: seq<Event>): Session
    decreases |es|
  {
    if es == [] then s else Run(decode, Step(decode, s, es[0]), es[1..])
  }

  // ----- Chunk boundaries do not matter --------------------------------------------------------

  lemma {:induction false} HandleLinesConcat(decode: Decoder, s: Session, a: seq<string>, b: seq<string>)
    ensures HandleLines(decode, s, a + b) == HandleLines(decode, HandleLines(decode, s, a), b)
    decreases |a|
  {
    if a == [] {
      assert a + b == b;
    } else {
      assert (a + b)[1..] == a[1..] + b;
      HandleLinesConcat(decode, HandleLine(decode, s, a[0]), a[1..], b);
    }
  }

  lemma {:induction false} HandleLinesKeepsBuffer(decode: Decoder, s: Session, lines: seq<string>, buffer: string)
    ensures HandleLines(decode, s, lines).buffer == s.buffer
    ensures HandleLines(decode, s.(buffer := buffer), lines) == HandleLines(decode, s, lines).(buffer := buffer)
    decreases |lines|
  {
    if lines != [] {
      HandleLinesKeepsBuffer(decode, HandleLine(decode, s, lines[0]), lines[1..], buffer);
    }
  }

  lemma TwoChunksAreOne(decode: Decoder, s: Session, a: string, b: string)
    ensures OnData(decode, OnData(decode, s, a), b) == OnData(decode, s, a + b)
  {
    var first := Feed(s.buffer, a);
    var second := Feed(first.rest, b);
    var t := s.(buffer := first.rest);
    FeedTwice(s.buffer, a, b);
    HandleLinesKeepsBuffer(decode, t, first.lines, second.rest);
    HandleLinesConcat(decode, s.(buffer := second.rest), first.lines, second.lines);
    assert t.(buffer := second.rest) == s.(buffer := second.rest);
  }

  function DataEvents(chunks: seq<string>): seq<Event>
    decreases |chunks|
  {
    if chunks == [] then [] else [Data(chunks[0])] + DataEvents(chunks[1..])
  }

  /** Any chunking of the output leaves the session as if the output had come in one piece:
      outcomes, pending requests and buffer do not depend on chunk boundaries. */
  lemma {:induction false} SessionChunkingIndependence(decode: Decoder, s: Session, chunks: seq<string>)
    requires Unbroken(s.buffer)
    ensures Run(decode, s, DataEvents(chunks)) == OnData(decode, s, Concat(chunks))
    decreases |chunks|
  {
    if chunks == [] {
      FeedNothing(s.buffer);
      assert s.(buffer := s.buffer) == s;
    } else {
      var t := OnData(decode, s, chunks[0]);
      FeedUnbroken(s.buffer, chunks[0]);
      var framed := Feed(s.buffer, chunks[0]);
      HandleLinesKeepsBuffer(decode, s.(buffer := framed.rest), framed.lines, "");
      var es := DataEvents(chunks);
      assert es[0] == Data(chunks[0]) && es[1..] == DataEvents(chunks[1..]);
      SessionChunkingIndependence(decode, t, chunks[1..]);
      TwoChunksAreOne(decode, s, chunks[0], Concat(chunks[1..]));
    }
  }

  // ----- Every request is pending or settled, and settled once ----------------------------------

  ghost predicate SettledId(s: Session, i: nat) {
    exists k :: 0 <= k < |s.settled| && s.settled[k].id == i
  }

  /** Ids 1 to the counter are partitioned into the pending and the settled ones, no id is
      settled twice, and the pending map holds its keys in the order they were issued. */
  ghost predicate Partitioned(s: Session) {
    && (forall i: nat :: 1 <= i <= s.counter <==> i in s.pending || SettledId(s, i))
    && (forall i: nat :: !(i in s.pending && SettledId(s, i)))
    && (forall j, k :: 0 <= j < k < |s.settled| ==> s.settled[j].id != s.settled[k].id)
    && Increasing(s.pending)
    && Unbroken(s.buffer)
  }

  ghost predicate Increasing(ids: seq<nat>) {
    forall j, k :: 0 <= j < k < |ids| ==> ids[j] < ids[k]
  }

  lemma SendKeepsPartition(s: Session)
    requires Partitioned(s)
    ensures Partitioned(Send(s))
  {
    var t := Send(s);
    forall i: nat ensures SettledId(t, i) == SettledId(s, i) {}
    if s.alive {
      forall j | 0 <= j < |s.pending| ensures s.pending[j] <= s.counter {
        assert s.pending[j] in s.pending;
      }
      assert t.pending[|s.pending|] == s.counter + 1;
      forall i: nat ensures i in t.pending <==> i in s.pending || i == s.counter + 1 {}
    }
  }

  lemma {:induction false} WithoutKeepsOrder(pending: seq<nat>, id: nat)
    requires Increasing(pending)
    ensures Increasing(Without(pending, id))
  {
    if pending != [] {
      WithoutKeepsOrder(pending[1..], id);
      var r := Without(pending[1..], id);
      forall j | 0 <= j < |r| ensures pending[0] < r[j] {
        assert r[j] in r;
        var k :| 0 <= k < |pending[1..]| && pending[1..][k] == r[j];
        assert pending[k + 1] == r[j];
      }
      var all := [pending[0]] + r;
      forall j, k | 0 <= j < k < |all| ensures all[j] < all[k] {
        if j > 0 { assert all[j] == r[j - 1]; }
        assert all[k] == r[k - 1];
      }
    }
  }

  lemma SettledOneMore(s: Session, t: Session, x: Settlement)
    requires t.settled == s.settled + [x]
    ensures forall i: nat :: SettledId(t, i) <==> SettledId(s, i) || i == x.id
  {
    forall i: nat ensures SettledId(t, i) <==> SettledId(s, i) || i == x.id {
      if SettledId(s, i) {
        var k :| 0 <= k < |s.settled| && s.settled[k].id == i;
        assert t.settled[k].id == i;
      }
      assert t.settled[|s.settled|] == x;
    }
  }

  lemma ResponseKeepsPartition(s: Session, m: Message)
    requires Partitioned(s)
    ensures Partitioned(HandleResponse(s, m))
  {
    if m.id in s.pending {
      var t := HandleResponse(s, m);
      SettledOneMore(s, t, Settlement(m.id, OutcomeOf(m)));
      WithoutKeepsOrder(s.pending, m.id);
      forall j, k | 0 <= j < k < |t.settled| ensures t.settled[j].id != t.settled[k].id {
        if k == |s.settled| {
          assert SettledId(s, s.settled[j].id);
        }
      }
    }
  }

  lemma {:induction false} LinesKeepPartition(decode: Decoder, s: Session, lines: seq<string>)
    requires Partitioned(s)
    ensures Partitioned(HandleLines(decode, s, lines))
    decreases |lines|
  {
    if lines != [] {
      if decode(lines[0]).Some? {
        ResponseKeepsPartition(s, decode(lines[0]).value);
      }
      LinesKeepPartition(decode, HandleLine(decode, s, lines[0]), lines[1..]);
    }
  }

  lemma {:induction false} RejectEachShape(pending: seq<nat>, reason: Reason)
    ensures var r := RejectEach(pending, reason);
      |r| == |pending| && forall k :: 0 <= k < |r| ==> r[k] == Settlement(pending[k], Rejected(reason))
  {
    if pending != [] {
      RejectEachShape(pending[1..], reason);
    }
  }

  lemma RejectAllSettles(s: Session, reason: Reason, i: nat)
    ensures SettledId(RejectAll(s, reason), i) <==> SettledId(s, i) || i in s.pending
  {
    var t, n := RejectAll(s, reason), |s.settled|;
    RejectEachShape(s.pending, reason);
    if SettledId(s, i) {
      var k :| 0 <= k < n && s.settled[k].id == i;
      assert t.settled[k].id == i;
    }
    if i in s.pending {
      var k :| 0 <= k < |s.pending| && s.pending[k] == i;
      assert t.settled[n + k].id == i;
    }
    if SettledId(t, i) {
      var k :| 0 <= k < |t.settled| && t.settled[k].id == i;
      if k < n { assert s.settled[k].id == i; } else { assert s.pending[k - n] == i; }
    }
  }

  lemma RejectAllKeepsPartition(s: Session, reason: Reason)
    requires Partitioned(s)
    ensures Partitioned(RejectAll(s, reason))
  {
    var t, n := RejectAll(s, reason), |s.settled|;
    RejectEachShape(s.pending, reason);
    forall j, k | 0 <= j < k < |t.settled| ensures t.settled[j].id != t.settled[k].id {
      if j < n <= k {
        assert SettledId(s, s.settled[j].id) && s.pending[k - n] in s.pending;
      }
    }
    forall i: nat ensures SettledId(t, i) <==> SettledId(s, i) || i in s.pending {
      RejectAllSettles(s, reason, i);
    }
  }

  lemma StepKeepsPartition(decode: Decoder, s: Session, e: Event)
    requires Partitioned(s)
    ensures Partitioned(Step(decode, s, e))
  {
    match e
    case Spawn =>
      SameBooks(s, s.(alive := true));
      SendKeepsPartition(s.(alive := true));
    case Ready =>
      SameBooks(s, s.(connected := true));
    case Call =>
      SendKeepsPartition(s);
    case Data(chunk) =>
      var framed := Feed(s.buffer, chunk);
      FeedUnbroken(s.buffer, chunk);
      SameBooks(s, s.(buffer := framed.rest));
      LinesKeepPartition(decode, s.(buffer := framed.rest), framed.lines);
    case Failure =>
      RejectAllKeepsPartition(s, ProcessError);
    case Exit =>
      RejectAllKeepsPartition(s, Exited);
      SameBooks(RejectAll(s, Exited), Step(decode, s, e));
    case Disconnect =>
      SameBooks(s, s.(alive := false, connected := false));
      RejectAllKeepsPartition(s.(alive := false, connected := false), Disconnected);
  }

  lemma SameBooks(s: Session, t: Session)
    requires Partitioned(s) && Unbroken(t.buffer)
    requires t.counter == s.counter && t.pending == s.pending && t.settled == s.settled
    ensures Partitioned(t)
  {
    forall i: nat ensures SettledId(t, i) == SettledId(s, i) {}
  }

  /** In every interleaving, from the start. */
  lemma {:induction false} EveryReachableSessionIsPartitioned(decode: Decoder, s: Session, es: seq<Event>)
    requires Partitioned(s)
    ensures Partitioned(Run(decode, s, es))
    decreases |es|
  {
    if es != [] {
      StepKeepsPartition(decode, s, es[0]);
      EveryReachableSessionIsPartitioned(decode, Step(decode, s, es[0]), es[1..]);
    }
  }

  lemma StartIsPartitioned()
    ensures Partitioned(START)
  {
  }

  /** From a new client on, every interleaving keeps ids 1 to the counter partitioned. */
  lemma EverySessionIsPartitioned(decode: Decoder, es: seq<Event>)
    ensures Partitioned(Run(decode, START, es))
  {
    StartIsPartitioned();
    EveryReachableSessionIsPartitioned(decode, START, es);
  }

  // ----- Which outcome a request gets -------------------------------------------------------------

  /** The outcome recorded for `i`, if it is settled. */
  ghost function Recorded(settled: seq<Settlement>, i: nat): Option<Outcome> {
    if settled == [] then None
    else if settled[0].id == i then Some(settled[0].outcome)
    else Recorded(settled[1..], i)
  }

  /** The first response with id `i` among complete lines. */
  ghost function FirstAnswer(decode: Decoder, lines: seq<string>, i: nat): Option<Outcome>
    decreases |lines|
  {
    if lines == [] then None
    else if decode(lines[0]).Some? && decode(lines[0]).value.id == i then Some(OutcomeOf(decode(lines[0]).value))
    else FirstAnswer(decode, lines[1..], i)
  }

  /** What the events alone decide for a request that is pending before them: the first
      matching response or the first process failure, exit or disconnection, whichever
      comes first.  No other request is mentioned. */
  ghost function Fate(decode: Decoder, buffer: string, es: seq<Event>, i: nat): Option<Outcome>
    decreases |es|
  {
    if es == [] then None
    else match es[0]
      case Data(chunk) =>
        var framed := Feed(buffer, chunk);
        var answer := FirstAnswer(decode, framed.lines, i);
        if answer.Some? then answer else Fate(decode, framed.rest, es[1..], i)
      case Failure => Some(Rejected(ProcessError))
      case Exit => Some(Rejected(Exited))
      case Disconnect => Some(Rejected(Disconnected))
      case _ => Fate(decode, buffer, es[1..], i)
  }

  lemma {:induction false} RecordedConcat(a: seq<Settlement>, b: seq<Settlement>, i: nat)
    ensures Recorded(a + b, i) == if Recorded(a, i).Some? then Recorded(a, i) else Recorded(b, i)
  {
    if a == [] {
      assert a + b == b;
    } else {
      assert (a + b)[1..] == a[1..] + b;
      RecordedConcat(a[1..], b, i);
    }
  }

  lemma {:induction false} RecordedMeansSettled(settled: seq<Settlement>, i: nat)
    ensures Recorded(settled, i).Some? <==> exists k :: 0 <= k < |settled| && settled[k].id == i
  {
    if settled != [] {
      RecordedMeansSettled(settled[1..], i);
      if k :| 0 <= k < |settled[1..]| && settled[1..][k].id == i {
        assert settled[k + 1].id == i;
      }
      if k :| 0 <= k < |settled| && settled[k].id == i && settled[0].id != i {
        assert settled[1..][k - 1].id == i;
      }
    }
  }

  lemma {:induction false} RejectEachRecords(pending: seq<nat>, reason: Reason, i: nat)
    ensures Recorded(RejectEach(pending, reason), i) == if i in pending then Some(Rejected(reason)) else None
  {
    if pending != [] {
      RejectEachRecords(pending[1..], reason, i);
    }
  }

  /** A settled request never changes: a step only appends to the record. */
  lemma StepOnlyAppends(decode: Decoder, s: Session, e: Event)
    ensures s.settled <= Step(decode, s, e).settled
  {
    if e.Data? {
      var framed := Feed(s.buffer, e.chunk);
      LinesOnlyAppend(decode, s.(buffer := framed.rest), framed.lines);
    }
  }

  lemma {:induction false} LinesOnlyAppend(decode: Decoder, s: Session, lines: seq<string>)
    ensures s.settled <= HandleLines(decode, s, lines).settled
    decreases |lines|
  {
    if lines != [] {
      LinesOnlyAppend(decode, HandleLine(decode, s, lines[0]), lines[1..]);
    }
  }

  lemma {:induction false} RunKeepsRecords(decode: Decoder, s: Session, es: seq<Event>, i: nat)
    requires Recorded(s.settled, i).Some?
    ensures Recorded(Run(decode, s, es).settled, i) == Recorded(s.settled, i)
    decreases |es|
  {
    if es != [] {
      var t := Step(decode, s, es[0]);
      StepOnlyAppends(decode, s, es[0]);
      assert t.settled == s.settled + t.settled[|s.settled|..];
      RecordedConcat(s.settled, t.settled[|s.settled|..], i);
      RunKeepsRecords(decode, t, es[1..], i);
    }
  }

  lemma {:induction false} LinesDecide(decode: Decoder, s: Session, lines: seq<string>, i: nat)
    requires i in s.pending && Recorded(s.settled, i) == None
    ensures var t := HandleLines(decode, s, lines);
      && Recorded(t.settled, i) == FirstAnswer(decode, lines, i)
      && (i in t.pending <==> FirstAnswer(decode, lines, i) == None)
    decreases |lines|
  {
    if lines != [] {
      var t := HandleLine(decode, s, lines[0]);
      var d := decode(lines[0]);
      if d.Some? && d.value.id in s.pending {
        RecordedConcat(s.settled, [Settlement(d.value.id, OutcomeOf(d.value))], i);
      }
      if d.Some? && d.value.id == i {
        AnsweredOnce(decode, t, lines[1..], i);
      } else {
        LinesDecide(decode, t, lines[1..], i);
      }
    }
  }

  /** Duplicate and late responses: no line touches a request that is no longer pending. */
  lemma {:induction false} AnsweredOnce(decode: Decoder, s: Session, lines: seq<string>, i: nat)
    requires i !in s.pending
    ensures var t := HandleLines(decode, s, lines);
      i !in t.pending && Recorded(t.settled, i) == Recorded(s.settled, i)
    decreases |lines|
  {
    if lines != [] {
      var d := decode(lines[0]);
      if d.Some? && d.value.id in s.pending {
        RecordedConcat(s.settled, [Settlement(d.value.id, OutcomeOf(d.value))], i);
      }
      AnsweredOnce(decode, HandleLine(decode, s, lines[0]), lines[1..], i);
    }
  }

  lemma RejectAllRecords(s: Session, reason: Reason, i: nat)
    requires i in s.pending && Recorded(s.settled, i) == None
    ensures Recorded(RejectAll(s, reason).settled, i) == Some(Rejected(reason))
  {
    RecordedConcat(s.settled, RejectEach(s.pending, reason), i);
    RejectEachRecords(s.pending, reason, i);
  }

  /** A pending request is settled by whatever the events say first, whichever other requests
      are in flight, and stays pending if they say nothing. */
  lemma {:induction false} OutcomeIsFate(decode: Decoder, s: Session, es: seq<Event>, i: nat)
    requires i in s.pending && Recorded(s.settled, i) == None
    ensures var t := Run(decode, s, es);
      && Recorded(t.settled, i) == Fate(decode, s.buffer, es, i)
      && (Fate(decode, s.buffer, es, i) == None ==> i in t.pending)
    decreases |es|
  {
    if es != [] {
      var e := es[0];
      var t := Step(decode, s, e);
      match e {
        case Data(chunk) =>
          var framed := Feed(s.buffer, chunk);
          LinesDecide(decode, s.(buffer := framed.rest), framed.lines, i);
          HandleLinesKeepsBuffer(decode, s.(buffer := framed.rest), framed.lines, "");
          if FirstAnswer(decode, framed.lines, i).Some? {
            RunKeepsRecords(decode, t, es[1..], i);
          } else {
            OutcomeIsFate(decode, t, es[1..], i);
          }
        case Failure =>
          RejectAllRecords(s, ProcessError, i);
          RunKeepsRecords(decode, t, es[1..], i);
        case Exit =>
          RejectAllRecords(s, Exited, i);
          RunKeepsRecords(decode, t, es[1..], i);
        case Disconnect =>
          RejectAllRecords(s.(alive := false, connected := false), Disconnected, i);
          RunKeepsRecords(decode, t, es[1..], i);
        case _ =>
          OutcomeIsFate(decode, t, es[1..], i);
      }
    }
  }

  /** The request a call sends gets, whatever else is going on, exactly its fate. */
  lemma CallGetsItsFate(decode: Decoder, before: seq<Event>, after: seq<Event>)
    requires var s := Run(decode, START, before); s.connected && s.alive
    ensures var s := Run(decode, START, before);
      var id := s.counter + 1;
      Recorded(Run(decode, Step(decode, s, Call), after).settled, id) == Fate(decode, s.buffer, after, id)
  {
    var s := Run(decode, START, before);
    EverySessionIsPartitioned(decode, before);
    var id := s.counter + 1;
    var t := Step(decode, s, Call);
    assert t.pending[|s.pending|] == id;
    RecordedMeansSettled(t.settled, id);
    assert !SettledId(s, id);
    OutcomeIsFate(decode, t, after, id);
  }

  // ----- Errors reject, results resolve -------------------------------------------------------------

  /** The first response with id `i` among complete lines, as a message. */
  ghost function FirstMessage(decode: Decoder, lines: seq<string>, i: nat): Option<Message>
    decreases |lines|
  {
    if lines == [] then None
    else if decode(lines[0]).Some? && decode(lines[0]).value.id == i then decode(lines[0])
    else FirstMessage(decode, lines[1..], i)
  }

  /** The first response with id `i` in the output, unless the connection ends before it. */
  ghost function FirstResponse(decode: Decoder, buffer: string, es: seq<Event>, i: nat): Option<Message>
    decreases |es|
  {
    if es == [] || es[0].Failure? || es[0].Exit? || es[0].Disconnect? then None
    else if es[0].Data? then
      var framed := Feed(buffer, es[0].chunk);
      var first := FirstMessage(decode, framed.lines, i);
      if first.Some? then first else FirstResponse(decode, framed.rest, es[1..], i)
    else FirstResponse(decode, buffer, es[1..], i)
  }

  /** A response with an error stands for the rejection with that code and message, one without for
      its result. */
  ghost predicate SettledBy(outcome: Option<Outcome>, m: Message) {
    && (forall code, message :: m.error == Some(RpcError(code, message)) ==>
          outcome == Some(Rejected(ErrorResponse(code, message))))
    && (m.error == None ==> outcome == Some(Resolved(m.result)))
  }

  lemma {:induction false} AnswerIsMessage(decode: Decoder, lines: seq<string>, i: nat)
    ensures match FirstMessage(decode, lines, i)
      case Some(m) => m.id == i && SettledBy(FirstAnswer(decode, lines, i), m)
      case None => FirstAnswer(decode, lines, i) == None
    decreases |lines|
  {
    if lines != [] {
      AnswerIsMessage(decode, lines[1..], i);
    }
  }

  lemma {:induction false} ResponseIsFate(decode: Decoder, buffer: string, es: seq<Event>, i: nat)
    ensures match FirstResponse(decode, buffer, es, i)
      case Some(m) => m.id == i && SettledBy(Fate(decode, buffer, es, i), m)
      case None => Fate(decode, buffer, es, i) in
                     {None, Some(Rejected(ProcessError)), Some(Rejected(Exited)), Some(Rejected(Disconnected))}
    decreases |es|
  {
    hide Feed, FirstMessage, FirstAnswer;
    if es != [] {
      ResponseIsFate(decode, buffer, es[1..], i);
      if es[0].Data? {
        var framed := Feed(buffer, es[0].chunk);
        AnswerIsMessage(decode, framed.lines, i);
        ResponseIsFate(decode, framed.rest, es[1..], i);
      }
    }
  }

  /** At any point of any session: if the first response to a call carries an error, the call is
      rejected with that code and message; if it carries none, it is resolved with the result; and
      without a response it stays open or is rejected by the end of the connection. */
  lemma FirstResponseDecides(decode: Decoder, before: seq<Event>, after: seq<Event>)
    requires var s := Run(decode, START, before); s.connected && s.alive
    ensures var s := Run(decode, START, before);
      var id := s.counter + 1;
      var outcome := Recorded(Run(decode, Step(decode, s, Call), after).settled, id);
      match FirstResponse(decode, s.buffer, after, id)
      case Some(m) => m.id == id && SettledBy(outcome, m)
      case None => outcome in
                     {None, Some(Rejected(ProcessError)), Some(Rejected(Exited)), Some(Rejected(Disconnected))}
  {
    var s := Run(decode, START, before);
    CallGetsItsFate(decode, before, after);
    ResponseIsFate(decode, s.buffer, after, s.counter + 1);
  }
}

/** What a partial line that an old process left in the buffer does to the next connection. */
module McpReconnect {
  import opened Wrappers
  import opened LineFraming
  import opened McpSession
  import opened Sequences

  /** Neither disconnecting nor spawning a new process clears the line buffer, so a partial
      last line of the old process is glued to the first line of the new one. */
  lemma ReconnectKeepsBuffer(decode: Decoder, s: Session)
    ensures Run(decode, s, [Disconnect, Spawn]).buffer == s.buffer
  {
    var t := Step(decode, s, Disconnect);
    assert [Disconnect, Spawn][1..] == [Spawn] && [Spawn][1..] == [];
    assert Run(decode, t, [Spawn]) == Step(decode, t, Spawn);
  }

  // ----- Which leftovers are harmless -------------------------------------------------------------

  /** What a line settles, if it is a response to a request issued after the first `from`. */
  function AnswerIn(decode: Decoder, from: nat, line: string): Option<Settlement> {
    if decode(line).Some? && decode(line).value.id > from
    then Some(Settlement(decode(line).value.id, OutcomeOf(decode(line).value))) else None
  }

  /** Gluing the leftover to the front of a line never changes what the line answers. */
  ghost predicate Harmless(decode: Decoder, from: nat, leftover: string) {
    forall line :: Unbroken(line) ==> AnswerIn(decode, from, leftover + line) == AnswerIn(decode, from, line)
  }

  /** The events decide the same for every later request, with and without the leftover. */
  ghost predicate SameFates(decode: Decoder, from: nat, leftover: string) {
    forall es: seq<Event>, i: nat :: i > from ==> Fate(decode, leftover, es, i) == Fate(decode, "", es, i)
  }

  /** The leftover goes into the first piece of the output. */
  lemma FeedLeftover(leftover: string, u: string, chunk: string)
    requires Unbroken(leftover) && Unbroken(u)
    ensures var a, b := Feed(leftover + u, chunk), Feed(u, chunk);
      if b.lines == [] then a.lines == [] && a.rest == leftover + b.rest && Unbroken(b.rest)
      else a.rest == b.rest && a.lines == [leftover + b.lines[0]] + b.lines[1..] && Unbroken(b.lines[0])
  {
    assert (leftover + u) + chunk == leftover + (u + chunk);
    SplitAfterLeftover(leftover, u + chunk);
    FeedUnbroken(u, chunk);
  }

  lemma FirstAnswerSame(decode: Decoder, from: nat, a: string, b: string, rest: seq<string>, i: nat)
    requires i > from && AnswerIn(decode, from, a) == AnswerIn(decode, from, b)
    ensures FirstAnswer(decode, [a] + rest, i) == FirstAnswer(decode, [b] + rest, i)
  {
    assert ([a] + rest)[1..] == rest && ([b] + rest)[1..] == rest;
  }

  lemma {:induction false} HarmlessKeepsFate(decode: Decoder, from: nat, leftover: string, u: string,
                                             es: seq<Event>, i: nat)
    requires Unbroken(leftover) && Unbroken(u) && Harmless(decode, from, leftover) && i > from
    ensures Fate(decode, leftover + u, es, i) == Fate(decode, u, es, i)
    decreases |es|
  {
    if es != [] {
      match es[0]
      case Data(chunk) =>
        FeedLeftover(leftover, u, chunk);
        var b := Feed(u, chunk);
        if b.lines == [] {
          HarmlessKeepsFate(decode, from, leftover, b.rest, es[1..], i);
        } else {
          FirstAnswerSame(decode, from, leftover + b.lines[0], b.lines[0], b.lines[1..], i);
          assert [b.lines[0]] + b.lines[1..] == b.lines;
        }
      case Failure => case Exit => case Disconnect =>
      case _ => HarmlessKeepsFate(decode, from, leftover, u, es[1..], i);
    }
  }

  /** One more line that arrives whole is delivered with the leftover in front. */
  lemma LineArrives(buffer: string, line: string)
    requires Unbroken(buffer) && Unbroken(line)
    ensures Feed(buffer, line + "\n") == Framed([buffer + line], "")
  {
    JoinThenSplit([buffer + line, ""]);
    assert [buffer + line, ""][1..] == [""];
    assert Join([buffer + line, ""]) == (buffer + line) + "\n" + "";
    assert buffer + (line + "\n") == (buffer + line) + "\n" + "";
  }

  /** The outcome of a request when one whole line arrives and nothing else happens. */
  lemma FateOfLine(decode: Decoder, from: nat, leftover: string, line: string, i: nat)
    requires Unbroken(leftover) && Unbroken(line) && i > from
    ensures var x := AnswerIn(decode, from, leftover + line);
      Fate(decode, leftover, [Data(line + "\n")], i)
        == if x.Some? && x.value.id == i then Some(x.value.outcome) else None
  {
    LineArrives(leftover, line);
    var es := [Data(line + "\n")];
    assert es[1..] == [] && [leftover + line][1..] == [];
    assert FirstAnswer(decode, [leftover + line][1..], i) == None;
  }

  /** The id of a request that a harmful leftover affects. */
  lemma HarmfulLine(decode: Decoder, from: nat, leftover: string) returns (line: string, i: nat)
    requires Unbroken(leftover) && !Harmless(decode, from, leftover)
    ensures Unbroken(line) && i > from
    ensures Fate(decode, leftover, [Data(line + "\n")], i) != Fate(decode, "", [Data(line + "\n")], i)
  {
    line :| Unbroken(line) && AnswerIn(decode, from, leftover + line) != AnswerIn(decode, from, line);
    var x, y := AnswerIn(decode, from, leftover + line), AnswerIn(decode, from, line);
    i := if x.Some? then x.value.id else y.value.id;
    FateOfLine(decode, from, leftover, line, i);
    FateOfLine(decode, from, "", line, i);
    assert "" + line == line;
  }

  /** For every decoder: a leftover changes the outcome of no later request, whatever happens, if
      and only if gluing it to a line never changes what the line answers. */
  lemma LeftoverChangesFate(decode: Decoder, from: nat, leftover: string)
    requires Unbroken(leftover)
    ensures SameFates(decode, from, leftover) <==> Harmless(decode, from, leftover)
  {
    if Harmless(decode, from, leftover) {
      forall es: seq<Event>, i: nat | i > from ensures Fate(decode, leftover, es, i) == Fate(decode, "", es, i) {
        HarmlessKeepsFate(decode, from, leftover, "", es, i);
        assert leftover + "" == leftover;
      }
    } else {
      var line, i := HarmfulLine(decode, from, leftover);
      assert !SameFates(decode, from, leftover);
    }
  }

  // ----- Whole sessions ------------------------------------------------------------------------------

  /** All requests in flight were issued after the first `from`. */
  ghost predicate IssuedAfter(s: Session, from: nat) {
    s.counter >= from && forall i :: i in s.pending ==> i > from
  }

  lemma HandleSameAnswer(decode: Decoder, from: nat, s: Session, a: string, b: string)
    requires IssuedAfter(s, from) && AnswerIn(decode, from, a) == AnswerIn(decode, from, b)
    ensures HandleLine(decode, s, a) == HandleLine(decode, s, b)
  {
  }

  lemma {:induction false} LinesKeepIssued(decode: Decoder, from: nat, s: Session, lines: seq<string>)
    requires IssuedAfter(s, from)
    ensures IssuedAfter(HandleLines(decode, s, lines), from)
    decreases |lines|
  {
    if lines != [] {
      LinesKeepIssued(decode, from, HandleLine(decode, s, lines[0]), lines[1..]);
    }
  }

  lemma StepKeepsIssued(decode: Decoder, from: nat, s: Session, e: Event)
    requires IssuedAfter(s, from)
    ensures IssuedAfter(Step(decode, s, e), from)
  {
    if e.Data? {
      var framed := Feed(s.buffer, e.chunk);
      LinesKeepIssued(decode, from, s.(buffer := framed.rest), framed.lines);
    }
  }

  /** One chunk: afterwards the leftover is still in front of the buffer, or it has been consumed
      without effect. */
  lemma DataOnLeftover(decode: Decoder, from: nat, s: Session, leftover: string, u: string, chunk: string)
    requires Unbroken(leftover) && Unbroken(u) && Harmless(decode, from, leftover) && IssuedAfter(s, from)
    ensures var a, b := OnData(decode, s.(buffer := leftover + u), chunk), OnData(decode, s.(buffer := u), chunk);
      a == b || (Unbroken(b.buffer) && a == b.(buffer := leftover + b.buffer))
  {
    FeedLeftover(leftover, u, chunk);
    var f, g := Feed(leftover + u, chunk), Feed(u, chunk);
    if g.lines != [] {
      var t := s.(buffer := g.rest);
      HandleSameAnswer(decode, from, t, leftover + g.lines[0], g.lines[0]);
      assert f.lines[1..] == g.lines[1..];
      assert s.(buffer := leftover + u).(buffer := f.rest) == t && s.(buffer := u).(buffer := g.rest) == t;
    }
  }

  /** One event on a session with the leftover in front of the buffer, and on one without. */
  lemma StepOnLeftover(decode: Decoder, from: nat, s: Session, leftover: string, e: Event)
    requires Unbroken(leftover) && Unbroken(s.buffer) && Harmless(decode, from, leftover) && IssuedAfter(s, from)
    ensures var a, b := Step(decode, s.(buffer := leftover + s.buffer), e), Step(decode, s, e);
      a == b || (Unbroken(b.buffer) && a == b.(buffer := leftover + b.buffer))
  {
    if e.Data? {
      DataOnLeftover(decode, from, s, leftover, s.buffer, e.chunk);
      assert s.(buffer := s.buffer) == s;
    } else {
      hide OnData, Harmless, IssuedAfter, AnswerIn;
    }
  }

  lemma {:induction false} HarmlessSettlesAlike(decode: Decoder, from: nat, s: Session, leftover: string,
                                                es: seq<Event>)
    requires Unbroken(leftover) && Unbroken(s.buffer) && Harmless(decode, from, leftover) && IssuedAfter(s, from)
    ensures Run(decode, s.(buffer := leftover + s.buffer), es).settled == Run(decode, s, es).settled
    decreases |es|
  {
    if es != [] {
      StepKeepsIssued(decode, from, s, es[0]);
      StepOnLeftover(decode, from, s, leftover, es[0]);
      hide Step, Harmless, IssuedAfter, Unbroken;
      var a, b := Step(decode, s.(buffer := leftover + s.buffer), es[0]), Step(decode, s, es[0]);
      if a != b {
        HarmlessSettlesAlike(decode, from, b, leftover, es[1..]);
      }
    }
  }

  lemma {:induction false} RunConcat(decode: Decoder, s: Session, a: seq<Event>, b: seq<Event>)
    ensures Run(decode, s, a + b) == Run(decode, Run(decode, s, a), b)
    decreases |a|
  {
    if a == [] {
      assert a + b == b;
    } else {
      assert (a + b)[1..] == a[1..] + b;
      RunConcat(decode, Step(decode, s, a[0]), a[1..], b);
    }
  }

  function Calls(n: nat): seq<Event> {
    if n == 0 then [] else [Call] + Calls(n - 1)
  }

  lemma {:induction false} CallsIssue(decode: Decoder, s: Session, n: nat)
    requires s.connected && s.alive && s.counter in s.pending
    ensures var t := Run(decode, s, Calls(n));
      t.counter == s.counter + n && t.counter in t.pending && t.buffer == s.buffer
    decreases n
  {
    if n > 0 {
      assert Calls(n)[1..] == Calls(n - 1);
      var t := Step(decode, s, Call);
      assert t.pending[|s.pending|] == t.counter;
      CallsIssue(decode, t, n - 1);
    }
  }

  /** From a connection being made, enough calls put any later id in flight. */
  lemma IdInFlight(decode: Decoder, s: Session, i: nat)
    requires Partitioned(s) && s.alive && s.counter in s.pending && i >= s.counter
    ensures var t := Run(decode, s, [Ready] + Calls(i - s.counter));
      && i in t.pending && t.buffer == s.buffer && Recorded(t.settled, i) == None
  {
    var n := i - s.counter;
    var es := [Ready] + Calls(n);
    assert es[0] == Ready && es[1..] == Calls(n);
    CallsIssue(decode, Step(decode, s, Ready), n);
    EveryReachableSessionIsPartitioned(decode, s, es);
    var t := Run(decode, s, es);
    assert !SettledId(t, i);
    RecordedMeansSettled(t.settled, i);
  }

  /** In every continuation the two sessions settle the same requests the same way, in the same
      order. */
  ghost predicate SettleAlike(decode: Decoder, s: Session, t: Session) {
    forall es: seq<Event> :: Run(decode, s, es).settled == Run(decode, t, es).settled
  }

  /** Once a later id is in flight, it is settled as the events that follow decide. */
  lemma LaterOutcome(decode: Decoder, s: Session, i: nat, last: seq<Event>)
    requires Partitioned(s) && s.alive && s.counter in s.pending && i >= s.counter
    ensures Recorded(Run(decode, s, [Ready] + Calls(i - s.counter) + last).settled, i)
         == Fate(decode, s.buffer, last, i)
  {
    var prefix := [Ready] + Calls(i - s.counter);
    IdInFlight(decode, s, i);
    hide Run, Fate, Calls, Step, Partitioned;
    OutcomeIsFate(decode, Run(decode, s, prefix), last, i);
    RunConcat(decode, s, prefix, last);
  }

  lemma HarmfulSettlesOtherwise(decode: Decoder, s: Session)
    requires Partitioned(s) && s.alive && s.pending == [s.counter] && s.counter > 0
    requires !Harmless(decode, s.counter - 1, s.buffer)
    ensures !SettleAlike(decode, s, s.(buffer := ""))
  {
    var line, i := HarmfulLine(decode, s.counter - 1, s.buffer);
    SameBooks(s, s.(buffer := ""));
    assert s.pending[0] == s.counter;
    hide Run, Fate, Calls, Harmless, Partitioned, Unbroken;
    LaterOutcome(decode, s, i, [Data(line + "\n")]);
    LaterOutcome(decode, s.(buffer := ""), i, [Data(line + "\n")]);
  }

  lemma ReconnectState(decode: Decoder, s: Session)
    requires Partitioned(s)
    ensures var t := Run(decode, s, [Disconnect, Spawn]);
      && Partitioned(t) && t.alive && t.counter == s.counter + 1 && t.pending == [t.counter] && t.buffer == s.buffer
  {
    EveryReachableSessionIsPartitioned(decode, s, [Disconnect, Spawn]);
    assert [Disconnect, Spawn][1..] == [Spawn] && [Spawn][1..] == [];
    var t := Step(decode, s, Disconnect);
    assert Run(decode, t, [Spawn]) == Step(decode, t, Spawn);
    assert [] + [t.counter + 1] == [t.counter + 1];
  }

  /** For the client's own decoder: after a reconnect everything is settled, in every continuation,
      as if the buffer had been cleared, if and only if gluing the leftover to a line never changes
      which new request the line answers, and how. */
  lemma ReconnectIsFresh(decode: Decoder, s: Session)
    requires Partitioned(s)
    ensures var t := Run(decode, s, [Disconnect, Spawn]);
      SettleAlike(decode, t, t.(buffer := "")) <==> Harmless(decode, s.counter, s.buffer)
  {
    ReconnectState(decode, s);
    var t := Run(decode, s, [Disconnect, Spawn]);
    hide Run;
    if Harmless(decode, s.counter, s.buffer) {
      forall es: seq<Event> ensures Run(decode, t, es).settled == Run(decode, t.(buffer := ""), es).settled {
        HarmlessSettlesAlike(decode, s.counter, t.(buffer := ""), s.buffer, es);
        assert s.buffer + "" == s.buffer;
        assert t.(buffer := "").(buffer := s.buffer) == t;
      }
    } else {
      HarmfulSettlesOtherwise(decode, t);
    }
  }

  // ----- Decoders that trim ---------------------------------------------------------------------------

  predicate IsBlank(c: char) {
    || c in " \t\r\n\U{b}\U{c}\U{a0}\U{1680}\U{2028}\U{2029}\U{202f}\U{205f}\U{3000}\U{feff}"
    || '\U{2000}' <= c <= '\U{200a}'
  }

  predicate AllBlank(s: string) {
    forall c :: c in s ==> IsBlank(c)
  }

  function TrimStart(s: string): string {
    if s != "" && IsBlank(s[0]) then TrimStart(s[1..]) else s
  }

  function TrimEnd(s: string): string {
    if s != "" && IsBlank(s[|s| - 1]) then TrimEnd(s[..|s| - 1]) else s
  }

  /** The client's decoder: trim, skip empty lines, parse. */
  function Trimming(parse: Decoder): Decoder {
    (line: string) =>
      var trimmed := TrimEnd(TrimStart(line));
      if trimmed == "" then None else parse(trimmed)
  }

  lemma {:induction false} TrimStartBlank(blank: string, line: string)
    requires AllBlank(blank)
    ensures TrimStart(blank + line) == TrimStart(line)
  {
    if blank == "" {
      assert blank + line == line;
    } else {
      assert (blank + line)[1..] == blank[1..] + line;
      assert blank[0] in blank;
      TrimStartBlank(blank[1..], line);
    }
  }

  lemma {:induction false} TrimStartKeeps(s: string, line: string)
    requires !AllBlank(s)
    ensures TrimStart(s + line) == TrimStart(s) + line && TrimStart(s) != "" && !IsBlank(TrimStart(s)[0])
  {
    if IsBlank(s[0]) {
      assert (s + line)[1..] == s[1..] + line;
      assert s == [s[0]] + s[1..];
      TrimStartKeeps(s[1..], line);
    }
  }

  /** Whatever the parser, a blank leftover is harmless to a decoder that trims. */
  lemma BlankIsHarmless(parse: Decoder, from: nat, leftover: string)
    requires AllBlank(leftover)
    ensures Harmless(Trimming(parse), from, leftover)
  {
    forall line | Unbroken(line)
      ensures AnswerIn(Trimming(parse), from, leftover + line) == AnswerIn(Trimming(parse), from, line)
    {
      TrimStartBlank(leftover, line);
    }
  }

  /** The parser accepts a response to a later request that it rejects with anything but blanks in
      front, as JSON does. */
  ghost predicate RejectsPrefixes(parse: Decoder, from: nat, response: string) {
    && response != "" && Unbroken(response) && !IsBlank(response[0]) && !IsBlank(response[|response| - 1])
    && parse(response).Some? && parse(response).value.id > from
    && forall s :: s != "" && !IsBlank(s[0]) ==> parse(s + response) == None
  }

  /** For a client that trims its lines and parses JSON: after a reconnect everything is settled as
      from a cleared buffer if and only if the old process left nothing but blanks. */
  lemma TrimmedReconnectIsFresh(parse: Decoder, s: Session, response: string)
    requires Partitioned(s) && RejectsPrefixes(parse, s.counter, response)
    ensures var t := Run(Trimming(parse), s, [Disconnect, Spawn]);
      SettleAlike(Trimming(parse), t, t.(buffer := "")) <==> AllBlank(s.buffer)
  {
    ReconnectIsFresh(Trimming(parse), s);
    hide Run, SettleAlike, Harmless, Partitioned, RejectsPrefixes;
    if AllBlank(s.buffer) {
      BlankIsHarmless(parse, s.counter, s.buffer);
    } else {
      OtherwiseHarmful(parse, s.counter, s.buffer, response);
    }
  }

  lemma OtherwiseHarmful(parse: Decoder, from: nat, leftover: string, response: string)
    requires RejectsPrefixes(parse, from, response) && !AllBlank(leftover)
    ensures !Harmless(Trimming(parse), from, leftover)
  {
    TrimStartKeeps(leftover, response);
    hide IsBlank, AllBlank;
    var glued := TrimStart(leftover) + response;
    assert glued[|glued| - 1] == response[|response| - 1];
    assert TrimEnd(glued) == glued && TrimEnd(response) == response && TrimStart(response) == response;
    assert Trimming(parse)(leftover + response) == parse(glued) == None;
    assert Trimming(parse)(response) == parse(response);
    assert AnswerIn(Trimming(parse), from, leftover + response) != AnswerIn(Trimming(parse), from, response);
  }

  // ----- A lost response ------------------------------------------------------------------------------

  /** The response line that shows that a leftover matters. */
  const ANSWER := "{}"

  /** A client whose first process left a partial line, and whose second awaits a response. */
  const GLUED := Session(2, [2], "x", true, false, [Settlement(1, Rejected(Disconnected))])

  /** A chunk without a newline only fills the buffer. */
  lemma PartialLine(decode: Decoder, s: Session, chunk: string)
    requires s.buffer == "" && Unbroken(chunk)
    ensures Step(decode, s, Data(chunk)) == s.(buffer := chunk)
  {
    JoinThenSplit([chunk]);
    assert "" + chunk == chunk;
    assert Feed("", chunk) == Framed([], chunk);
  }

  lemma FirstSpawn(decode: Decoder)
    ensures Step(decode, START, Spawn) == Session(1, [1], "", true, false, [])
  {
    assert [] + [1] == [1];
  }

  lemma DisconnectAndSpawn(decode: Decoder)
    ensures Step(decode, Step(decode, Session(1, [1], "x", true, false, []), Disconnect), Spawn) == GLUED
  {
    assert RejectEach([1], Disconnected)
        == [Settlement(1, Rejected(Disconnected))] + RejectEach([1][1..], Disconnected);
    assert [] + [Settlement(1, Rejected(Disconnected))] == [Settlement(1, Rejected(Disconnected))];
    assert [] + [2] == [2];
    hide OnData;
  }

  lemma GluedIsReached(decode: Decoder)
    ensures Run(decode, START, [Spawn, Data("x"), Disconnect, Spawn]) == GLUED
  {
    hide Step, Run;
    RunFour(decode, START, Spawn, Data("x"), Disconnect, Spawn);
    FirstSpawn(decode);
    PartialLine(decode, Session(1, [1], "", true, false, []), "x");
    DisconnectAndSpawn(decode);
  }

  /** A new client, a partial line, a new process: its first response is lost, and the request
      that awaits it stays pending, while without the partial line it is resolved. */
  lemma ResponseLostAfterReconnect()
    ensures var s := Run(AnswerTwo, START, [Spawn, Data("x"), Disconnect, Spawn]);
      var glued := Step(AnswerTwo, s, Data(ANSWER + "\n"));
      var clean := Step(AnswerTwo, s.(buffer := ""), Data(ANSWER + "\n"));
      && glued.pending == [2] && Recorded(glued.settled, 2) == None
      && clean.pending == [] && Recorded(clean.settled, 2) == Some(Resolved(""))
  {
    GluedIsReached(AnswerTwo);
    hide Run;
    LineArrives("x", ANSWER);
    LineArrives("", ANSWER);
    assert "" + ANSWER == ANSWER && |"x" + ANSWER| != |ANSWER|;
    var quiet := GLUED.(buffer := "");
    OneLine(AnswerTwo, quiet, "x" + ANSWER);
    OneLine(AnswerTwo, quiet, ANSWER);
    assert Without([2], 2) == Without([2][1..], 2);
    RecordedConcat(GLUED.settled, [Settlement(2, Resolved(""))], 2);
    assert GLUED.settled[1..] == [];
  }

  lemma OneLine(decode: Decoder, s: Session, line: string)
    ensures HandleLines(decode, s, [line]) == HandleLine(decode, s, line)
  {
    assert [line][1..] == [];
  }

  function AnswerTwo(line: string): Option<Message> {
    if line == ANSWER then Some(Message(2, None, "")) else None
  }

  lemma RunFour(decode: Decoder, s: Session, a: Event, b: Event, c: Event, d: Event)
    ensures Run(decode, s, [a, b, c, d]) == Step(decode, Step(decode, Step(decode, Step(decode, s, a), b), c), d)
  {
    hide Step;
    assert [a, b, c, d][1..] == [b, c, d];
    assert [b, c, d][1..] == [c, d] && [c, d][1..] == [d] && [d][1..] == [];
    var t := Step(decode, Step(decode, s, a), b);
    assert Run(decode, t, [c, d]) == Run(decode, Step(decode, t, c), [d]);
    assert Run(decode, Step(decode, t, c), [d]) == Run(decode, Step(decode, Step(decode, t, c), d), []);
    assert Run(decode, Step(decode, s, a), [b, c, d]) == Run(decode, t, [c, d]);
  }
}

/** When the MCP client is connected, when it has a process, and how many ids it has used, in terms of
    the events alone. */
module McpConnection {
  import opened McpSession

  /** The last of the events that bear on it is the accepted initialize response. */
  ghost function ConnectedAfter(es: seq<Event>): bool {
    if es == [] then false
    else match es[|es| - 1]
      case Ready => true
      case Exit => false
      case Disconnect => false
      case _ => ConnectedAfter(es[..|es| - 1])
  }

  /** A process has been spawned since the last disconnection.  Its exit does not count. */
  ghost function HasProcessAfter(es: seq<Event>): bool {
    if es == [] then false
    else
      var before := es[..|es| - 1];
      match es[|es| - 1]
      case Spawn => HasProcessAfter(before) || !ConnectedAfter(before)
      case Disconnect => false
      case _ => HasProcessAfter(before)
  }

  /** The requests sent: one for each spawn while not connected, and one for each call while connected
      to a process. */
  ghost function SentBy(es: seq<Event>): nat {
    if es == [] then 0
    else
      var before := es[..|es| - 1];
      match es[|es| - 1]
      case Spawn => SentBy(before) + (if ConnectedAfter(before) then 0 else 1)
      case Call => SentBy(before) + (if ConnectedAfter(before) && HasProcessAfter(before) then 1 else 0)
      case _ => SentBy(before)
  }

  lemma {:induction false} RunConcat(decode: Decoder, s: Session, a: seq<Event>, b: seq<Event>)
    ensures Run(decode, s, a + b) == Run(decode, Run(decode, s, a), b)
    decreases |a|
  {
    hide Step;
    if a == [] {
      assert a + b == b;
    } else {
      assert (a + b)[1..] == a[1..] + b;
      RunConcat(decode, Step(decode, s, a[0]), a[1..], b);
    }
  }

  lemma RunOneMore(decode: Decoder, es: seq<Event>)
    requires es != []
    ensures Run(decode, START, es) == Step(decode, Run(decode, START, es[..|es| - 1]), es[|es| - 1])
  {
    var n := |es| - 1;
    var last := [es[n]];
    assert es == es[..n] + last;
    RunConcat(decode, START, es[..n], last);
    hide Step;
    assert Run(decode, Run(decode, START, es[..n]), last)
        == Run(decode, Step(decode, Run(decode, START, es[..n]), es[n]), last[1..]);
  }

  lemma {:induction false} LinesKeepConnection(decode: Decoder, s: Session, lines: seq<string>)
    ensures var t := HandleLines(decode, s, lines);
      t.connected == s.connected && t.alive == s.alive && t.counter == s.counter
    decreases |lines|
  {
    if lines != [] {
      LinesKeepConnection(decode, HandleLine(decode, s, lines[0]), lines[1..]);
    }
  }

  /** In every session the client is connected, has a process and has used ids as the events say,
      whatever is answered. */
  lemma {:induction false} ConnectionFollowsEvents(decode: Decoder, es: seq<Event>)
    ensures var s := Run(decode, START, es);
      s.connected == ConnectedAfter(es) && s.alive == HasProcessAfter(es) && s.counter == SentBy(es)
  {
    if es != [] {
      var before, e := es[..|es| - 1], es[|es| - 1];
      ConnectionFollowsEvents(decode, before);
      RunOneMore(decode, es);
      var s := Run(decode, START, before);
      hide Run;
      if e.Data? {
        var framed := LineFraming.Feed(s.buffer, e.chunk);
        LinesKeepConnection(decode, s.(buffer := framed.rest), framed.lines);
      }
    }
  }
}

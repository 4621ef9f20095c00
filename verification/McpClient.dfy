/** The stdio client itself: fields updated in place by event handlers.  Every handler is
    tied to the corresponding step of McpSession. */
module McpClient {
  import opened Wrappers
  import opened LineFraming
  import opened McpSession
  import opened Sequences

  datatype SendError = NotConnected | StdinNotAvailable

  class McpStdioClient {
    const decode: Decoder
    var requestCounter: nat
    var pendingRequests: seq<nat>
    var lineBuffer: string
    var hasProcess: bool
    var connected: bool
    /** Every `resolve` and `reject` call made so far. */
    ghost var settled: seq<Settlement>

    constructor (decode: Decoder)
      ensures this.decode == decode && State() == START
    {
      this.decode := decode;
      requestCounter, pendingRequests, lineBuffer := 0, [], "";
      hasProcess, connected, settled := false, false, [];
    }

    ghost function State(): Session
      reads this
    {
      Session(requestCounter, pendingRequests, lineBuffer, hasProcess, connected, settled)
    }

    method SendRequest() returns (r: Result<nat, SendError>)
      modifies this
      ensures State() == Send(old(State()))
      ensures r == if old(hasProcess) then Ok(old(requestCounter) + 1) else Err(StdinNotAvailable)
    {
      if !hasProcess {
        return Err(StdinNotAvailable);
      }
      requestCounter := requestCounter + 1;
      pendingRequests := pendingRequests + [requestCounter];
      r := Ok(requestCounter);
    }

    /** connect() up to the point where it waits for the initialize response. */
    method BeginConnect()
      modifies this
      ensures State() == Step(decode, old(State()), Spawn)
    {
      if connected { return; }
      hasProcess := true;
      var _ := SendRequest();
    }

    /** connect() once the initialize response has arrived. */
    method FinishConnect()
      modifies this
      ensures State() == Step(decode, old(State()), Ready)
    {
      connected := true;
    }

    /** listTools() and callTool(): both check the connection and send one request. */
    method Request() returns (r: Result<nat, SendError>)
      modifies this
      ensures State() == Step(decode, old(State()), Call)
      ensures r == if old(connected && hasProcess) then Ok(old(requestCounter) + 1) else Err(NotConnected)
    {
      if !connected || !hasProcess {
        return Err(NotConnected);
      }
      r := SendRequest();
    }

    /** The "data" handler of the process's standard output. */
    method OnStdoutData(chunk: string)
      modifies this
      ensures State() == Step(decode, old(State()), Data(chunk))
    {
      lineBuffer := lineBuffer + chunk;
      assert "" + lineBuffer == lineBuffer;
      assert Feed("", lineBuffer) == Feed(old(lineBuffer), chunk);
      ProcessLineBuffer();
    }

    method ProcessLineBuffer()
      modifies this
      ensures State() == OnData(decode, old(State().(buffer := "")), old(lineBuffer))
    {
      var lines := Split(lineBuffer);
      assert "" + lineBuffer == lineBuffer;
      lineBuffer := lines[|lines| - 1];
      lines := lines[..|lines| - 1];
      ghost var start := State();
      assert Feed("", old(lineBuffer)) == Framed(lines, lineBuffer);
      assert lines[0..] == lines;
      for i := 0 to |lines|
        invariant HandleLines(decode, State(), lines[i..]) == HandleLines(decode, start, lines)
      {
        assert lines[i..][0] == lines[i] && lines[i..][1..] == lines[i + 1..];
        var message := decode(lines[i]);
        if message.Some? {
          ReceiveResponse(message.value);
        }
      }
      assert lines[|lines|..] == [];
    }

    method ReceiveResponse(message: Message)
      modifies this
      ensures State() == HandleResponse(old(State()), message)
    {
      if message.id !in pendingRequests { return; }
      pendingRequests := Without(pendingRequests, message.id);
      if message.error.Some? {
        var error := message.error.value;
        settled := settled + [Settlement(message.id, Rejected(ErrorResponse(error.code, error.message)))];
      } else {
        settled := settled + [Settlement(message.id, Resolved(message.result))];
      }
    }

    method RejectAllPending(reason: Reason)
      modifies this
      ensures State() == RejectAll(old(State()), reason)
    {
      ghost var before := settled;
      for i := 0 to |pendingRequests|
        invariant State() == old(State()).(settled := settled)
        invariant settled + RejectEach(pendingRequests[i..], reason) == before + RejectEach(pendingRequests, reason)
      {
        var rest := pendingRequests[i..];
        assert rest[0] == pendingRequests[i] && rest[1..] == pendingRequests[i + 1..];
        var x := Settlement(pendingRequests[i], Rejected(reason));
        assert settled + ([x] + RejectEach(rest[1..], reason)) == (settled + [x]) + RejectEach(rest[1..], reason);
        settled := settled + [x];
      }
      assert pendingRequests[|pendingRequests|..] == [];
      pendingRequests := [];
    }

    method OnProcessError()
      modifies this
      ensures State() == Step(decode, old(State()), Failure)
    {
      RejectAllPending(ProcessError);
    }

    method OnProcessExit()
      modifies this
      ensures State() == Step(decode, old(State()), Exit)
    {
      RejectAllPending(Exited);
      connected := false;
    }

    method CloseConnection()
      modifies this
      ensures State() == Step(decode, old(State()), Disconnect)
    {
      if hasProcess {
        hasProcess := false;
      }
      connected := false;
      RejectAllPending(Disconnected);
      pendingRequests := [];
    }
  }
}

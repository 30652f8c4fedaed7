/**
 * The sales desk's end of the protocol: one-shot requests on a fresh socket
 * whose reply runs to end of stream, and a long-polling channel on which the
 * server pushes `end`-terminated requests and `test` probes.
 */
module Client {
  import opened Outcomes
  import opened CommunicationPrimitive
  import opened Channels
  import PushConnection

  const WaitTimeLongPolling: int := 0
  const WaitTimeServer: int := 5000
  const WaitTimeServerReconnectAttempt: int := 10 * 1000

  /** A listener of server requests: whether it accepted the request, or the IOException it threw. */
  type Listener = (Primitive, seq<string>) -> Result<bool>

  /** `send` on a fresh socket in state `w`: set the timeout, write the symbol and the parameters line if any. */
  function SendSpec(w: Wire, request: Primitive, waitTime: int, parameters: Option<string>): (Result<()>, Wire) {
    if !w.open then (Err(IOException), w)
    else (Ok(()), w.(timeout := waitTime,
                     output := w.output + [Symbol(request)] + (if parameters.Some? then [parameters.value] else [])))
  }

  /** `receiveServerResponse`: every line up to end of stream; a failing read ends the list silently. */
  function ResponseSpec(w: Wire, results: seq<string>): (out: (seq<string>, Wire))
    ensures |out.1.input| <= |w.input| && out.1.open == w.open && out.1.inputEnd == w.inputEnd
  {
    if !w.open then (results, w) else (results + w.input, w.(input := []))
  }

  /** `receiveServerRequest`: the lines before the first `end`; end of stream before it dereferences null. */
  function RequestSpec(w: Wire, results: seq<string>): (out: (Result<()>, seq<string>, Wire))
    ensures |out.2.input| <= |w.input| && out.2.open == w.open && out.2.inputEnd == w.inputEnd
    ensures out.0.Ok? ==> |out.2.input| < |w.input|
    decreases |w.input|
  {
    var (line, w1) := ReadLineSpec(w);
    match line
    case Err(e) => (Err(e), results, w1)
    case Ok(None) => (Err(NullPointer), results, w1)
    case Ok(Some(l)) => if l == Symbol(End) then (Ok(()), results, w1) else RequestSpec(w1, results + [l])
  }

  /**
   * `receive(results, serverRequest)`: read the primitive; a `test` probe
   * consumes one more line and is answered `ok` with the results untouched;
   * anything else replaces the results by the framed lines and is answered `ok`.
   */
  function ReceiveSpec(w: Wire, results: seq<string>, serverRequest: bool): (out: (Result<Primitive>, seq<string>, Wire))
    ensures out.0.Ok? ==> |out.2.input| < |w.input| && out.2.open == w.open && out.2.inputEnd == w.inputEnd
  {
    var (line, w1) := ReadLineSpec(w);
    match line
    case Err(e) => (Err(e), results, w1)
    case Ok(None) => (Err(NullPointer), results, w1)
    case Ok(Some(l)) =>
      match NewPrimitive(l)
      case Err(e) => (Err(e), results, w1)
      case Ok(p) => HandleSpec(w1, results, serverRequest, p)
  }

  /** What `receive` does once it has read primitive `p`. */
  function HandleSpec(w: Wire, results: seq<string>, serverRequest: bool, p: Primitive)
    : (out: (Result<Primitive>, seq<string>, Wire))
    ensures out.0.Ok? ==> |out.2.input| <= |w.input| && out.2.open == w.open && out.2.inputEnd == w.inputEnd
  {
    if p == Test then
      var (probe, w1) := ReadLineSpec(w);
      if probe.Err? then (Err(probe.exc), results, w1)
      else (Ok(Test), results, PrintLineSpec(w1, Symbol(OkReply)))
    else if !serverRequest then
      var (res, w1) := ResponseSpec(w, []);
      (Ok(p), res, PrintLineSpec(w1, Symbol(OkReply)))
    else
      var (framed, res, w1) := RequestSpec(w, []);
      if framed.Err? then (Err(framed.exc), res, w1)
      else (Ok(p), res, PrintLineSpec(w1, Symbol(OkReply)))
  }

  /** Reading a line that parses as `p` hands the rest of the input to `HandleSpec`. */
  lemma ReceiveParsed(w: Wire, results: seq<string>, serverRequest: bool, p: Primitive)
    requires w.open && |w.input| > 0 && NewPrimitive(w.input[0]) == Ok(p)
    ensures ReceiveSpec(w, results, serverRequest) == HandleSpec(w.(input := w.input[1..]), results, serverRequest, p)
  {
  }

  /** `sendRequest`: send, receive to end of stream, then close; an exception leaves the socket open. */
  function OneShotSpec(w: Wire, request: Primitive, waitTime: int, parameters: Option<string>,
                       results: seq<string>): (Result<Primitive>, seq<string>, Wire) {
    var (sent, w1) := SendSpec(w, request, waitTime, parameters);
    if sent.Err? then (Err(sent.exc), results, w1)
    else
      var (r, res, w2) := ReceiveSpec(w1, results, false);
      if r.Err? then (r, res, w2) else (r, res, w2.(open := false))
  }

  /**
   * The long-polling loop after the request was sent: it leaves only by the
   * exception some read, parse or listener call throws.
   */
  function LongPollSpec(w: Wire, results: seq<string>, listener: Listener): (Exc, Wire)
    decreases |w.input|
  {
    var (r, res, w1) := ReceiveSpec(w, results, true);
    match r
    case Err(e) => (e, w1)
    case Ok(p) =>
      if p == Test then LongPollSpec(w1, res, listener)
      else
        match listener(p, res)
        case Err(e) => (e, w1)
        case Ok(accepted) =>
          LongPollSpec(PrintLineSpec(w1, Symbol(if accepted then OkReply else NokReply)), res, listener)
  }

  /** The index of the first `end` line, if there is one. */
  function EndIndex(lines: seq<string>): (r: Option<nat>)
    ensures r.Some? ==> r.value < |lines| && lines[r.value] == "end" && "end" !in lines[..r.value]
    ensures r.None? ==> "end" !in lines
  {
    if |lines| == 0 then None
    else if lines[0] == "end" then Some(0)
    else
      match EndIndex(lines[1..])
      case None => None
      case Some(k) => assert lines[..k + 1] == [lines[0]] + lines[1..][..k]; Some(k + 1)
  }

  /**
   * `receiveServerRequest` appends exactly the lines strictly before the
   * first `end` and consumes that `end`; without an `end` it consumes all
   * and fails (NullPointerException at end of stream, else IOException).
   */
  lemma {:induction false} RequestSpecFraming(w: Wire, results: seq<string>)
    requires w.open
    ensures var (r, res, w') := RequestSpec(w, results);
      match EndIndex(w.input)
      case Some(k) => r == Ok(()) && res == results + w.input[..k] && w' == w.(input := w.input[k + 1..])
      case None =>
        r == Err(if w.inputEnd == PeerClosed then NullPointer else IOException) &&
        res == results + w.input && w' == w.(input := [])
  {
    match EndIndex(w.input)
    case Some(k) => RequestSpecFramed(w, results, k);
    case None => RequestSpecUnframed(w, results);
  }

  /** With the first `end` at index k, the k lines before it are appended. */
  lemma {:induction false} RequestSpecFramed(w: Wire, results: seq<string>, k: nat)
    requires w.open && k < |w.input| && w.input[k] == "end" && "end" !in w.input[..k]
    ensures RequestSpec(w, results) == (Ok(()), results + w.input[..k], w.(input := w.input[k + 1..]))
    decreases k
  {
    if k == 0 {
      RequestSpecAtEnd(w, results);
      assert results + w.input[..0] == results;
    } else {
      assert w.input[0] in w.input[..k];
      var w1 := w.(input := w.input[1..]);
      RequestSpecStep(w, results);
      assert w1.input[..k - 1] == w.input[1..k];
      RequestSpecFramed(w1, results + [w.input[0]], k - 1);
      assert results + [w.input[0]] + w1.input[..k - 1] == results + w.input[..k];
      assert w1.input[k..] == w.input[k + 1..];
    }
  }

  /** Without an `end` every line is appended and the read at the end fails. */
  lemma {:induction false} RequestSpecUnframed(w: Wire, results: seq<string>)
    requires w.open && "end" !in w.input
    ensures RequestSpec(w, results) ==
      (Err(if w.inputEnd == PeerClosed then NullPointer else IOException), results + w.input, w.(input := []))
    decreases |w.input|
  {
    if |w.input| == 0 {
      RequestSpecAtEnd(w, results);
      assert results + w.input == results;
    } else {
      var w1 := w.(input := w.input[1..]);
      RequestSpecStep(w, results);
      RequestSpecUnframed(w1, results + [w.input[0]]);
      assert results + [w.input[0]] + w1.input == results + w.input;
    }
  }

  /** With no line or an `end` line first, nothing is appended. */
  lemma RequestSpecAtEnd(w: Wire, results: seq<string>)
    requires w.open && (|w.input| == 0 || w.input[0] == "end")
    ensures |w.input| == 0 ==> RequestSpec(w, results) == (Err(if w.inputEnd == PeerClosed then NullPointer else IOException), results, w)
    ensures |w.input| > 0 ==> RequestSpec(w, results) == (Ok(()), results, w.(input := w.input[1..]))
  {
    assert Symbol(End) == "end";
  }

  /** A line other than `end` is appended and reading goes on. */
  lemma RequestSpecStep(w: Wire, results: seq<string>)
    requires w.open && |w.input| > 0 && w.input[0] != "end"
    ensures RequestSpec(w, results) == RequestSpec(w.(input := w.input[1..]), results + [w.input[0]])
  {
    assert Symbol(End) == "end";
  }

  /** A request line followed by `end` is framed as the one result and answered `ok`. */
  lemma HandleFramedLine(w: Wire, results: seq<string>, p: Primitive, line: string, rest: seq<string>)
    requires w.open && p != Test && line != "end" && w.input == [line, "end"] + rest
    ensures HandleSpec(w, results, true, p) == (Ok(p), [line], w.(input := rest, output := w.output + ["ok"]))
  {
    var w1 := w.(input := w.input[1..]);
    assert ReadLineSpec(w) == (Ok(Some(line)), w1);
    assert Symbol(End) == "end";
    assert [] + [line] == [line];
    assert RequestSpec(w, []) == RequestSpec(w1, [line]);
    assert w1.input == ["end"] + rest;
    assert RequestSpec(w1, [line]) == (Ok(()), [line], w1.(input := rest));
  }

  /** A bare `end` frames no results and is answered `ok`. */
  lemma HandleFramedEmpty(w: Wire, results: seq<string>, p: Primitive, rest: seq<string>)
    requires w.open && p != Test && w.input == ["end"] + rest
    ensures HandleSpec(w, results, true, p) == (Ok(p), [], w.(input := rest, output := w.output + ["ok"]))
  {
    assert ReadLineSpec(w) == (Ok(Some("end")), w.(input := rest));
    assert Symbol(End) == "end";
    assert RequestSpec(w, []) == (Ok(()), [], w.(input := rest));
  }

  /**
   * A push written by the server's `send` is read back by the client's
   * `receive` as the same primitive with the parameters line as its only
   * result, and answered with one `ok`.
   */
  lemma PushReadBack(w: Wire, p: Primitive, parameters: Option<string>, rest: seq<string>, results: seq<string>)
    requires w.open && p != Test && parameters != Some("end")
    requires w.input == PushConnection.RequestFrame(p, parameters) + rest
    ensures ReceiveSpec(w, results, true) ==
      (Ok(p), (if parameters.Some? then [parameters.value] else []),
       w.(input := rest, output := w.output + ["ok"]))
  {
    var w1 := w.(input := w.input[1..]);
    FrameTail(p, parameters, rest);
    PushHeaderParsed(w, p, parameters, rest, results);
    HandleFrameTail(w1, p, parameters, rest, results);
  }

  lemma FrameTail(p: Primitive, parameters: Option<string>, rest: seq<string>)
    ensures (PushConnection.RequestFrame(p, parameters) + rest)[1..] ==
      (if parameters.Some? then [parameters.value, "end"] else ["end"]) + rest
  {
  }

  lemma PushHeaderParsed(w: Wire, p: Primitive, parameters: Option<string>, rest: seq<string>, results: seq<string>)
    requires w.open && w.input == PushConnection.RequestFrame(p, parameters) + rest
    ensures ReceiveSpec(w, results, true) == HandleSpec(w.(input := w.input[1..]), results, true, p)
  {
    PushConnection.RequestFrameReadsBack(p, parameters);
    assert w.input[0] == PushConnection.RequestFrame(p, parameters)[0];
    ReceiveParsed(w, results, true, p);
  }

  lemma HandleFrameTail(w: Wire, p: Primitive, parameters: Option<string>, rest: seq<string>, results: seq<string>)
    requires w.open && p != Test && parameters != Some("end")
    requires w.input == (if parameters.Some? then [parameters.value, "end"] else ["end"]) + rest
    ensures HandleSpec(w, results, true, p) ==
      (Ok(p), (if parameters.Some? then [parameters.value] else []), w.(input := rest, output := w.output + ["ok"]))
  {
    if parameters.Some? {
      HandleFramedLine(w, results, p, parameters.value, rest);
    } else {
      HandleFramedEmpty(w, results, p, rest);
    }
  }

  /** A `test` probe consumes its `end` line, is answered with one `ok`, and leaves the results alone. */
  lemma TestProbeAnswered(w: Wire, rest: seq<string>, results: seq<string>, serverRequest: bool)
    requires w.open && w.input == PushConnection.RequestFrame(Test, None) + rest
    ensures ReceiveSpec(w, results, serverRequest) ==
      (Ok(Test), results, w.(input := rest, output := w.output + ["ok"]))
  {
    PushConnection.RequestFrameReadsBack(Test, None);
    assert w.input[0] == PushConnection.RequestFrame(Test, None)[0];
    ReceiveParsed(w, results, serverRequest, Test);
    FrameTail(Test, None, rest);
    var w1 := w.(input := w.input[1..]);
    assert w1.input[1..] == rest;
    HandleTest(w1, results, serverRequest);
  }

  /** After `test`, `receive` reads the next line and answers `ok`. */
  lemma HandleTest(w: Wire, results: seq<string>, serverRequest: bool)
    requires w.open && |w.input| > 0
    ensures HandleSpec(w, results, serverRequest, Test) ==
      (Ok(Test), results, w.(input := w.input[1..], output := w.output + ["ok"]))
  {
    assert Symbol(OkReply) == "ok";
  }

  /**
   * In long polling every pushed request costs two reply lines, `ok` from
   * `receive` and then `ok` or `nok` as the listener decided, while a probe
   * (sent without parameters) costs one `ok`; then the loop goes on with the
   * rest of the input.
   */
  lemma LongPollReplies(w: Wire, p: Primitive, parameters: Option<string>, rest: seq<string>,
                        results: seq<string>, listener: Listener)
    requires w.open && parameters != Some("end") && (p == Test ==> parameters.None?)
    requires w.input == PushConnection.RequestFrame(p, parameters) + rest
    requires p != Test ==> listener(p, if parameters.Some? then [parameters.value] else []).Ok?
    ensures p == Test ==>
      LongPollSpec(w, results, listener) ==
      LongPollSpec(w.(input := rest, output := w.output + ["ok"]), results, listener)
    ensures p != Test ==>
      var accepted := listener(p, if parameters.Some? then [parameters.value] else []).value;
      LongPollSpec(w, results, listener) ==
      LongPollSpec(w.(input := rest, output := w.output + ["ok", if accepted then "ok" else "nok"]),
                   if parameters.Some? then [parameters.value] else [], listener)
  {
    if p == Test {
      TestProbeAnswered(w, rest, results, true);
    } else {
      var w1 := w.(input := rest, output := w.output + ["ok"]);
      var accepted := listener(p, if parameters.Some? then [parameters.value] else []).value;
      var reply := if accepted then "ok" else "nok";
      assert w1.output + [reply] == w.output + ["ok", reply];
      assert Symbol(if accepted then OkReply else NokReply) == reply;
      PushReadBack(w, p, parameters, rest, results);
    }
  }

  /**
   * A one-shot request on a connected socket whose reply is the symbol of
   * `p` followed by `lines` returns `p` with exactly those lines, writes the
   * request, then `ok`, and closes the socket.
   */
  lemma OneShotReply(w: Wire, request: Primitive, waitTime: int, parameters: Option<string>,
                     results: seq<string>, p: Primitive, lines: seq<string>)
    requires w.open && w.input == [Symbol(p)] + lines && p != Test
    ensures OneShotSpec(w, request, waitTime, parameters, results) ==
      (Ok(p), lines,
       w.(input := [], open := false, timeout := waitTime,
          output := w.output + [Symbol(request)] + (if parameters.Some? then [parameters.value] else []) + ["ok"]))
  {
    var w1 := SendSpec(w, request, waitTime, parameters).1;
    var w2 := w1.(input := w1.input[1..]);
    assert w2.input == lines;
    assert w1.input[0] == Symbol(p);
    assert HandleSpec(w2, results, false, p) == (Ok(p), lines, w2.(input := [], output := w2.output + ["ok"])) by {
      assert [] + lines == lines;
    }
    assert ReceiveSpec(w1, results, false) == HandleSpec(w2, results, false, p) by {
      NewPrimitiveOfSymbol(p, ' ', "");
      ReceiveParsed(w1, results, false, p);
    }
  }

  class Client {
    const serverURL: string
    const serverPort: int
    var socket: Socket?

    constructor (serverURL: string, serverPort: int)
      ensures this.serverURL == serverURL && this.serverPort == serverPort && socket == null
    {
      this.serverURL := serverURL;
      this.serverPort := serverPort;
      socket := null;
    }

    /**
     * `send`: connect a new socket (`peer`, or None when the connection is
     * refused), set its timeout and write the request.
     */
    method Send(request: Primitive, waitTime: int, parameters: Option<string>, peer: Option<Socket>)
      returns (r: Result<()>)
      modifies this, if peer.Some? then {peer.value} else {}
      ensures peer.None? ==> r == Err(IOException) && socket == old(socket)
      ensures peer.Some? ==> (socket == peer.value &&
        (r, socket.State()) == SendSpec(old(peer.value.State()), request, waitTime, parameters))
    {
      if peer.None? {
        r := Err(IOException);
        return;
      }
      socket := peer.value;
      ghost var w := socket.State();
      r := socket.SetSoTimeout(waitTime);
      if r.Ok? {
        socket.PrintLine(Symbol(request));
        if parameters.Some? {
          socket.PrintLine(parameters.value);
        }
        assert socket.output == w.output + [Symbol(request)] + (if parameters.Some? then [parameters.value] else []);
      }
    }

    method ReceiveServerResponse(results: seq<string>) returns (newResults: seq<string>)
      requires socket != null
      modifies socket
      ensures (newResults, socket.State()) == ResponseSpec(old(socket.State()), results)
    {
      newResults := results;
      while true
        invariant newResults + socket.input == results + old(socket.input)
        invariant !socket.open ==> newResults == results && socket.input == old(socket.input)
        invariant socket.State() == old(socket.State()).(input := socket.input)
        decreases |socket.input|
      {
        var line := socket.ReadLine();
        if line.Err? || line.value.None? {
          assert socket.open ==> socket.input == [] && newResults == results + old(socket.input);
          return;
        }
        newResults := newResults + [line.value.value];
      }
    }

    method ReceiveServerRequest(results: seq<string>) returns (r: Result<()>, newResults: seq<string>)
      requires socket != null
      modifies socket
      ensures (r, newResults, socket.State()) == RequestSpec(old(socket.State()), results)
    {
      newResults := results;
      while true
        invariant RequestSpec(socket.State(), newResults) == RequestSpec(old(socket.State()), results)
        decreases |socket.input|
      {
        var line := socket.ReadLine();
        if line.Err? {
          return Err(line.exc), newResults;
        }
        if line.value.None? {
          return Err(NullPointer), newResults;
        }
        if line.value.value == Symbol(End) {
          return Ok(()), newResults;
        }
        newResults := newResults + [line.value.value];
      }
    }

    method Receive(results: seq<string>, serverRequest: bool) returns (r: Result<Primitive>, newResults: seq<string>)
      requires socket != null
      modifies socket
      ensures (r, newResults, socket.State()) == ReceiveSpec(old(socket.State()), results, serverRequest)
    {
      newResults := results;
      var line := socket.ReadLine();
      if line.Err? {
        return Err(line.exc), newResults;
      }
      if line.value.None? {
        return Err(NullPointer), newResults;
      }
      r := NewPrimitive(line.value.value);
      if r.Err? {
        return;
      }
      if r.value == Test {
        var probe := socket.ReadLine();
        if probe.Err? {
          return Err(probe.exc), newResults;
        }
        socket.PrintLine(Symbol(OkReply));
        return;
      }
      if !serverRequest {
        newResults := ReceiveServerResponse([]);
      } else {
        var framed;
        framed, newResults := ReceiveServerRequest([]);
        if framed.Err? {
          return Err(framed.exc), newResults;
        }
      }
      socket.PrintLine(Symbol(OkReply));
    }

    /** `sendRequest(request, waitTime, parameters, results)`. */
    method SendRequest(request: Primitive, waitTime: int, parameters: Option<string>, results: seq<string>,
                       peer: Option<Socket>) returns (r: Result<Primitive>, newResults: seq<string>)
      modifies this, if peer.Some? then {peer.value} else {}
      ensures peer.None? ==> r == Err(IOException) && newResults == results && socket == old(socket)
      ensures peer.Some? ==> (socket == peer.value &&
        (r, newResults, socket.State()) == OneShotSpec(old(peer.value.State()), request, waitTime, parameters, results))
    {
      var sent := Send(request, waitTime, parameters, peer);
      if sent.Err? {
        return Err(sent.exc), results;
      }
      r, newResults := Receive(results, false);
      if r.Ok? {
        socket.Close();
      }
    }

    /** `sendRequest(request, waitTime, parameters)`: the results go to a fresh list that is dropped. */
    method SendRequestWithoutResults(request: Primitive, waitTime: int, parameters: Option<string>,
                                     peer: Option<Socket>) returns (r: Result<Primitive>)
      modifies this, if peer.Some? then {peer.value} else {}
      ensures peer.None? ==> r == Err(IOException) && socket == old(socket)
      ensures peer.Some? ==> (socket == peer.value &&
        (r, socket.State()) == (var (r', _, w') := OneShotSpec(old(peer.value.State()), request, waitTime, parameters, []); (r', w')))
    {
      var dropped;
      r, dropped := SendRequest(request, waitTime, parameters, [], peer);
    }

    /**
     * `sendLongPollingRequest`: after sending, answer pushes forever; the
     * method only ever ends with an exception, returned here.
     */
    method SendLongPollingRequest(request: Primitive, waitTime: int, parameters: Option<string>,
                                  listener: Listener, peer: Option<Socket>) returns (e: Exc)
      modifies this, if peer.Some? then {peer.value} else {}
      ensures peer.None? ==> e == IOException && socket == old(socket)
      ensures peer.Some? ==> (socket == peer.value &&
        var (sent, w1) := SendSpec(old(peer.value.State()), request, waitTime, parameters);
        (e, socket.State()) == (if sent.Err? then (sent.exc, w1) else LongPollSpec(w1, [], listener)))
    {
      var sent := Send(request, waitTime, parameters, peer);
      if sent.Err? {
        return sent.exc;
      }
      var results := [];
      while true
        invariant socket == peer.value
        invariant LongPollSpec(socket.State(), results, listener) ==
          LongPollSpec(SendSpec(old(peer.value.State()), request, waitTime, parameters).1, [], listener)
        decreases |socket.input|
      {
        var response;
        response, results := Receive(results, true);
        if response.Err? {
          return response.exc;
        }
        if response.value != Test {
          var accepted := listener(response.value, results);
          if accepted.Err? {
            return accepted.exc;
          }
          socket.PrintLine(Symbol(if accepted.value then OkReply else NokReply));
        }
      }
    }
  }
}

/**
 * The server's end of a sales desk's push channel: requests go out framed
 * by their primitive and an `end` line, one reply primitive comes back
 * followed by whatever lines are already buffered.
 */
module PushConnection {
  import opened Outcomes
  import opened Text
  import opened CommunicationPrimitive
  import opened Channels

  /** The lines `send` writes: the symbol, the parameters line only when there is one, and `end`. */
  function RequestFrame(request: Primitive, parameters: Option<string>): seq<string> {
    [Symbol(request)] + (if parameters.Some? then [parameters.value] else []) + [Symbol(End)]
  }

  /** `send` on a socket in state `w`: set the read timeout, then write the frame. */
  function SendSpec(w: Wire, request: Primitive, waitTime: int, parameters: Option<string>): (Result<()>, Wire) {
    if !w.open then (Err(IOException), w)
    else (Ok(()), w.(timeout := waitTime, output := w.output + RequestFrame(request, parameters)))
  }

  /**
   * `receive(results)`: the reply primitive, the results list afterwards and
   * the new socket state.  At end of stream the reply is NOK and the results
   * stay as they were; otherwise the results become the buffered lines.
   */
  function ReceiveSpec(w: Wire, results: seq<string>): (Result<Primitive>, seq<string>, Wire) {
    var (line, w1) := ReadLineSpec(w);
    match line
    case Err(e) => (Err(e), results, w1)
    case Ok(None) => (Ok(NokReply), results, w1)
    case Ok(Some(l)) =>
      match NewPrimitive(l)
      case Err(e) => (Err(e), results, w1)
      case Ok(p) => (Ok(p), w1.input, w1.(input := []))
  }

  /** `sendRequest`: `send`, then `receive` when sending succeeded. */
  function ExchangeSpec(w: Wire, request: Primitive, waitTime: int, parameters: Option<string>,
                        results: seq<string>): (Result<Primitive>, seq<string>, Wire) {
    var (sent, w1) := SendSpec(w, request, waitTime, parameters);
    if sent.Err? then (Err(sent.exc), results, w1) else ReceiveSpec(w1, results)
  }

  /** The first line of a frame reads back as its primitive. */
  lemma RequestFrameReadsBack(request: Primitive, parameters: Option<string>)
    ensures NewPrimitive(RequestFrame(request, parameters)[0]) == Ok(request)
  {
    assert RequestFrame(request, parameters)[0] == Symbol(request);
    NewPrimitiveOfSymbol(request, ' ', "");
  }

  /**
   * On an open socket an exchange writes exactly the frame and sets the
   * timeout; on a closed one it fails with IOException and changes nothing.
   */
  lemma ExchangeWrites(w: Wire, request: Primitive, waitTime: int, parameters: Option<string>, results: seq<string>)
    ensures var (r, res, w') := ExchangeSpec(w, request, waitTime, parameters, results);
      (w.open ==> w'.output == w.output + RequestFrame(request, parameters) && w'.timeout == waitTime && w'.open) &&
      (!w.open ==> r == Err(IOException) && res == results && w' == w)
  {
  }

  /** A peer that closed without replying gives NOK, and the results list is left untouched. */
  lemma ExchangePeerClosed(w: Wire, request: Primitive, waitTime: int, parameters: Option<string>, results: seq<string>)
    requires w.open && w.input == [] && w.inputEnd == PeerClosed
    ensures var (r, res, _) := ExchangeSpec(w, request, waitTime, parameters, results);
      r == Ok(NokReply) && res == results
  {
  }

  /**
   * A reply whose first line is the symbol of `p` gives `p`; the results are
   * exactly the following buffered lines, in order, and the input is drained.
   */
  lemma ExchangeReply(w: Wire, request: Primitive, waitTime: int, parameters: Option<string>, results: seq<string>,
                      p: Primitive, rest: seq<string>)
    requires w.open && w.input == [Symbol(p)] + rest
    ensures var (r, res, w') := ExchangeSpec(w, request, waitTime, parameters, results);
      r == Ok(p) && res == rest && w'.input == []
  {
    var (_, w1) := SendSpec(w, request, waitTime, parameters);
    ReceiveReply(w1, results, p, rest);
  }

  /** `receive` on a reply line for `p`: the rest of the buffered input becomes the results. */
  lemma ReceiveReply(w: Wire, results: seq<string>, p: Primitive, rest: seq<string>)
    requires w.open && w.input == [Symbol(p)] + rest
    ensures ReceiveSpec(w, results) == (Ok(p), rest, w.(input := []))
  {
    NewPrimitiveOfSymbol(p, ' ', "");
    assert w.input[0] == Symbol(p);
    assert w.input[1..] == rest;
  }

  class SalesDeskPushConnection {
    const connectionID: string
    /** The company read off the socket; `None` when the desk closed before sending one. */
    const companyID: Option<string>
    const socket: Socket
    const latch: Latch

    constructor (connectionID: string, companyID: Option<string>, socket: Socket, latch: Latch)
      ensures this.connectionID == connectionID && this.companyID == companyID
      ensures this.socket == socket && this.latch == latch
    {
      this.connectionID := connectionID;
      this.companyID := companyID;
      this.socket := socket;
      this.latch := latch;
    }

    method Send(request: Primitive, waitTime: int, parameters: Option<string>) returns (r: Result<()>)
      modifies socket
      ensures (r, socket.State()) == SendSpec(old(socket.State()), request, waitTime, parameters)
    {
      ghost var w := socket.State();
      r := socket.SetSoTimeout(waitTime);
      if r.Ok? {
        ghost var w1 := w.(timeout := waitTime);
        socket.PrintLine(Symbol(request));
        ghost var written := [Symbol(request)];
        if parameters.Some? {
          socket.PrintLine(parameters.value);
          written := written + [parameters.value];
        }
        assert socket.State() == w1.(output := w.output + written);
        socket.PrintLine(Symbol(End));
        assert written + [Symbol(End)] == RequestFrame(request, parameters);
        ConcatAssoc(w.output, written, [Symbol(End)]);
        assert socket.State() == w1.(output := w.output + RequestFrame(request, parameters));
        assert SendSpec(w, request, waitTime, parameters) == (r, socket.State());
      } else {
        assert SendSpec(w, request, waitTime, parameters) == (r, w);
      }
    }

    method Receive(results: seq<string>) returns (r: Result<Primitive>, newResults: seq<string>)
      modifies socket
      ensures (r, newResults, socket.State()) == ReceiveSpec(old(socket.State()), results)
    {
      r := Ok(NokReply);
      newResults := results;
      ghost var w := socket.State();
      var line := socket.ReadLine();
      ghost var w1 := socket.State();
      assert (line, w1) == ReadLineSpec(w);
      if line.Err? {
        r := Err(line.exc);
        assert ReceiveSpec(w, results) == (r, results, w1);
        return;
      }
      if line.value.None? {
        assert ReceiveSpec(w, results) == (r, results, w1);
      } else {
        r := NewPrimitive(line.value.value);
        if r.Err? {
          assert ReceiveSpec(w, results) == (r, results, w1);
          return;
        }
        newResults := ReadBuffered();
        assert newResults == w1.input;
        assert ReceiveSpec(w, results) == (r, w1.input, w1.(input := []));
      }
    }

    /** The loop at the end of `receive`: every line the reader has ready, in order. */
    method ReadBuffered() returns (lines: seq<string>)
      requires socket.open
      modifies socket
      ensures lines == old(socket.input) && socket.State() == old(socket.State()).(input := [])
    {
      lines := [];
      var ready := socket.Ready();
      while ready == Ok(true)
        invariant socket.open && lines + socket.input == old(socket.input)
        invariant socket.inputEnd == old(socket.inputEnd) && socket.output == old(socket.output)
        invariant socket.timeout == old(socket.timeout)
        invariant ready == Ok(|socket.input| > 0)
        decreases |socket.input|
      {
        ghost var before := socket.input;
        ghost var w0 := socket.State();
        assert w0.open && w0.input == before && |before| > 0;
        assert ReadLineSpec(w0) == (Ok(Some(before[0])), w0.(input := before[1..]));
        var next := socket.ReadLine();
        assert socket.State() == w0.(input := before[1..]);
        assert next == Ok(Some(before[0])) && socket.input == before[1..];
        ghost var prefix := lines;
        lines := lines + [next.value.value];
        assert lines + socket.input == old(socket.input) by {
          assert [before[0]] + before[1..] == before;
          assert (prefix + [before[0]]) + before[1..] == prefix + ([before[0]] + before[1..]);
        }
        ready := socket.Ready();
      }
      assert socket.input == [] && lines + [] == lines;
    }

    /** `sendRequest(request, waitTime, parameters, results)`: one exchange on this channel. */
    method SendRequest(request: Primitive, waitTime: int, parameters: Option<string>, results: seq<string>)
      returns (r: Result<Primitive>, newResults: seq<string>)
      modifies socket
      ensures (r, newResults, socket.State()) == ExchangeSpec(old(socket.State()), request, waitTime, parameters, results)
    {
      var sent := Send(request, waitTime, parameters);
      if sent.Err? {
        r, newResults := Err(sent.exc), results;
        return;
      }
      r, newResults := Receive(results);
    }

    /** `sendRequest(request, waitTime, parameters)`: the results go to a fresh list that is dropped. */
    method SendRequestWithoutResults(request: Primitive, waitTime: int, parameters: Option<string>)
      returns (r: Result<Primitive>)
      modifies socket
      ensures (r, socket.State()) == (var (r', _, w') := ExchangeSpec(old(socket.State()), request, waitTime, parameters, []); (r', w'))
    {
      var dropped;
      r, dropped := SendRequest(request, waitTime, parameters, []);
    }

    /** `sendRequest(request, waitTime)`: no parameters line, so only the symbol and `end` are written. */
    method SendBareRequest(request: Primitive, waitTime: int) returns (r: Result<Primitive>)
      modifies socket
      ensures (r, socket.State()) == (var (r', _, w') := ExchangeSpec(old(socket.State()), request, waitTime, None, []); (r', w'))
      ensures old(socket.open) ==> socket.output == old(socket.output) + [Symbol(request), "end"]
    {
      ghost var w := socket.State();
      r := SendRequestWithoutResults(request, waitTime, None);
      ExchangeWrites(w, request, waitTime, None, []);
      assert RequestFrame(request, None) == [Symbol(request), "end"];
    }

    /** Closes the reader, the writer and the socket, and counts the latch down. */
    method EndConnection()
      modifies socket, latch
      ensures socket.State() == old(socket.State()).(open := false)
      ensures latch.count == if old(latch.count) > 0 then old(latch.count) - 1 else 0
    {
      socket.Close();
      latch.CountDown();
    }

    function ToString(): string {
      (if companyID.Some? then companyID.value else "null") + " " + connectionID
    }
  }

  /** The text of a connection splits at its space back into company and connection id. */
  lemma ToStringSplits(c: SalesDeskPushConnection)
    requires c.companyID.Some? && ' ' !in c.companyID.value && ' ' !in c.connectionID
    ensures Fields(c.ToString(), ' ') == [c.companyID.value, c.connectionID]
  {
    FieldsOfJoin([c.companyID.value, c.connectionID], ' ');
    assert Join([c.companyID.value, c.connectionID], ' ') == c.ToString();
  }
}

/**
 * The environment of the networking code: a java.net.Socket together with
 * the BufferedReader and autoflushing PrintWriter wrapped around it, and a
 * CountDownLatch.  A socket is two line queues: the lines the peer has sent
 * and that are already buffered, and the lines written to the peer.
 */
module Channels {
  import opened Outcomes

  /** What a read meets once the buffered lines are used up. */
  datatype InputEnd =
    | PeerClosed   // end of stream: readLine returns null
    | ReadFails    // the read times out or the connection is reset: IOException

  /** A snapshot of a socket's state. */
  datatype Wire = Wire(input: seq<string>, inputEnd: InputEnd, output: seq<string>, open: bool, timeout: int)

  /** `readLine()` on a socket in state `w`: the line read (null at end of stream) and the new state. */
  function ReadLineSpec(w: Wire): (Result<Option<string>>, Wire) {
    if !w.open then (Err(IOException), w)
    else if |w.input| > 0 then (Ok(Some(w.input[0])), w.(input := w.input[1..]))
    else if w.inputEnd == PeerClosed then (Ok(None), w)
    else (Err(IOException), w)
  }

  /** `println(line)`: a closed PrintWriter drops the line silently. */
  function PrintLineSpec(w: Wire, line: string): Wire {
    if w.open then w.(output := w.output + [line]) else w
  }

  class Socket {
    var input: seq<string>
    var inputEnd: InputEnd
    var output: seq<string>
    var open: bool
    var timeout: int

    function State(): Wire
      reads this
    {
      Wire(input, inputEnd, output, open, timeout)
    }

    /** A connected socket whose peer will send `input` and then do `inputEnd`. */
    constructor (input: seq<string>, inputEnd: InputEnd)
      ensures State() == Wire(input, inputEnd, [], true, 0)
    {
      this.input := input;
      this.inputEnd := inputEnd;
      output := [];
      open := true;
      timeout := 0;
    }

    method ReadLine() returns (r: Result<Option<string>>)
      modifies this
      ensures (r, State()) == ReadLineSpec(old(State()))
    {
      if !open {
        r := Err(IOException);
      } else if |input| > 0 {
        r := Ok(Some(input[0]));
        input := input[1..];
      } else if inputEnd == PeerClosed {
        r := Ok(None);
      } else {
        r := Err(IOException);
      }
    }

    /** `ready()`: every buffered line can be read without blocking. */
    method Ready() returns (r: Result<bool>)
      ensures r == if open then Ok(|input| > 0) else Err(IOException)
    {
      r := if open then Ok(|input| > 0) else Err(IOException);
    }

    method PrintLine(line: string)
      modifies this
      ensures State() == PrintLineSpec(old(State()), line)
    {
      if open {
        output := output + [line];
      }
    }

    /** `setSoTimeout(t)`: a closed socket refuses it. */
    method SetSoTimeout(t: int) returns (r: Result<()>)
      modifies this
      ensures old(open) ==> r == Ok(()) && State() == old(State()).(timeout := t)
      ensures !old(open) ==> r == Err(IOException) && State() == old(State())
    {
      if open {
        timeout := t;
        r := Ok(());
      } else {
        r := Err(IOException);
      }
    }

    /** Closing the reader, the writer and the socket; closing twice is harmless. */
    method Close()
      modifies this
      ensures State() == old(State()).(open := false)
    {
      open := false;
    }
  }

  /** A CountDownLatch, reduced to its counter (awaiting it is thread scheduling). */
  class Latch {
    var count: nat

    constructor (count: nat)
      ensures this.count == count
    {
      this.count := count;
    }

    method CountDown()
      modifies this
      ensures count == if old(count) > 0 then old(count) - 1 else 0
    {
      if count > 0 {
        count := count - 1;
      }
    }
  }
}

/**
 * The server's handler of one connection from a sales desk: it reads the
 * request line, then the request's argument lines, asks the registry, writes
 * the response lines and closes the connection.  A `connect` request instead
 * turns the connection into a push channel and hands it to the registry.
 */
module OfficeServer {
  import opened Outcomes
  import opened Text
  import opened CommunicationPrimitive
  import opened Channels
  import opened PushConnection
  import opened ServerPassenger
  import opened ServerTravel
  import opened ServerSalesDesk
  import opened SalesDesks
  import opened ConnectionIds
  import opened OfficesServer

  // ---------------------------------------------------------------------------
  // Reading the argument lines

  /** The `k`-th line the peer has already sent, or "" when there is none. */
  function LineAt(w: Wire, k: nat): string {
    if k < |w.input| then w.input[k] else ""
  }

  /** `Integer.parseInt(influx.readLine())`: a missing line is a NumberFormatException too. */
  function ReadIntSpec(w: Wire): (Result<int>, Wire) {
    var (line, w1) := ReadLineSpec(w);
    (if line.Err? then Err(line.exc)
     else if line.value.None? then Err(NumberFormat)
     else ParseInt(line.value.value), w1)
  }

  /**
   * What `readTravelFromInput` makes of a parse: a line that is no travel
   * (a NoSuchElementException, an InputMismatchException among them) gives
   * null; a NegativeArraySizeException is not caught.
   */
  function TravelOrNull(parsed: Result<(TravelRecord, int)>): (r: Result<Option<TravelRecord>>)
    ensures r.Ok? && r.value.Some? <==> parsed.Ok?
    ensures parsed.Ok? ==> r == Ok(Some(parsed.value.0))
    ensures r.Err? <==> parsed.Err? && !IsNoSuchElement(parsed.exc)
  {
    if parsed.Ok? then Ok(Some(parsed.value.0))
    else if IsNoSuchElement(parsed.exc) then Ok(None)
    else Err(parsed.exc)
  }

  /** `readTravelFromInput()`: a missing line makes the scanner throw a NullPointerException. */
  function ReadTravelSpec(w: Wire): (Result<Option<TravelRecord>>, Wire) {
    var (line, w1) := ReadLineSpec(w);
    (if line.Err? then Err(line.exc)
     else if line.value.None? then Err(NullPointer)
     else TravelOrNull(ParseTravel(line.value.value)), w1)
  }

  /** `readPassengerFromInput()`: a line with fewer than three fields gives null. */
  function ReadPassengerSpec(w: Wire): (Result<Option<Passenger>>, Wire) {
    var (line, w1) := ReadLineSpec(w);
    (if line.Err? then Err(line.exc)
     else if line.value.None? then Err(NullPointer)
     else
       var p := ParsePassenger(line.value.value);
       Ok(if p.Ok? then Some(p.value) else None), w1)
  }

  /** The arguments of an `assign` request: company, travel, passenger and seat. */
  datatype Assignation = Assignation(companyID: Option<string>, travel: Option<TravelRecord>,
                                     passenger: Option<Passenger>, seat: int)
  {
    predicate Complete() {
      companyID.Some? && travel.Some? && passenger.Some?
    }
  }

  /** The four reads of `assignationRequest`, in order; the first exception stops them. */
  function ReadAssignation(w: Wire): (Result<Assignation>, Wire) {
    var (companyID, w1) := ReadLineSpec(w);
    if companyID.Err? then (Err(companyID.exc), w1) else
    var (travel, w2) := ReadTravelSpec(w1);
    if travel.Err? then (Err(travel.exc), w2) else
    var (passenger, w3) := ReadPassengerSpec(w2);
    if passenger.Err? then (Err(passenger.exc), w3) else
    var (seat, w4) := ReadIntSpec(w3);
    if seat.Err? then (Err(seat.exc), w4) else
    (Ok(Assignation(companyID.value, travel.value, passenger.value, seat.value)), w4)
  }

  /** The company an assignation names is the first line the peer sent. */
  lemma ReadAssignationCompany(w: Wire)
    ensures var a := ReadAssignation(w).0;
      a.Ok? && a.value.companyID.Some? ==> a.value.companyID.value == LineAt(w, 0)
  {
  }

  /** The arguments of a `deallocate` or `who_is_sitting` request: company, travel and seat. */
  datatype SeatQuery = SeatQuery(companyID: Option<string>, travel: Option<TravelRecord>, seat: int)
  {
    predicate Complete() {
      companyID.Some? && travel.Some?
    }
  }

  /** The three reads of `deallocationRequest` and of `whoIsSiting`, in order. */
  function ReadSeatQuery(w: Wire): (Result<SeatQuery>, Wire) {
    var (companyID, w1) := ReadLineSpec(w);
    if companyID.Err? then (Err(companyID.exc), w1) else
    var (travel, w2) := ReadTravelSpec(w1);
    if travel.Err? then (Err(travel.exc), w2) else
    var (seat, w3) := ReadIntSpec(w2);
    if seat.Err? then (Err(seat.exc), w3) else
    (Ok(SeatQuery(companyID.value, travel.value, seat.value)), w3)
  }

  /** The company a seat query names is the first line the peer sent. */
  lemma ReadSeatQueryCompany(w: Wire)
    ensures var q := ReadSeatQuery(w).0;
      q.Ok? && q.value.companyID.Some? ==> q.value.companyID.value == LineAt(w, 0)
  {
  }

  /** The arguments of a `search_travel` request: company and travel id. */
  datatype TravelQuery = TravelQuery(companyID: Option<string>, travelID: Option<string>)

  /** The two reads of `searchTravel`. */
  function ReadTravelQuery(w: Wire): (Result<TravelQuery>, Wire) {
    var (companyID, w1) := ReadLineSpec(w);
    if companyID.Err? then (Err(companyID.exc), w1) else
    var (travelID, w2) := ReadLineSpec(w1);
    if travelID.Err? then (Err(travelID.exc), w2) else
    (Ok(TravelQuery(companyID.value, travelID.value)), w2)
  }

  /** The arguments of a `search_travels_per_date` request: company, then year, month and day. */
  datatype DateQuery = DateQuery(companyID: Option<string>, year: int, month: int, day: int)

  /** The four reads of `searchTravelsPerDate`: the year comes first and the day last. */
  function ReadDateQuery(w: Wire): (Result<DateQuery>, Wire) {
    var (companyID, w1) := ReadLineSpec(w);
    if companyID.Err? then (Err(companyID.exc), w1) else
    var (year, w2) := ReadIntSpec(w1);
    if year.Err? then (Err(year.exc), w2) else
    var (month, w3) := ReadIntSpec(w2);
    if month.Err? then (Err(month.exc), w3) else
    var (day, w4) := ReadIntSpec(w3);
    if day.Err? then (Err(day.exc), w4) else
    (Ok(DateQuery(companyID.value, year.value, month.value, day.value)), w4)
  }

  // ---------------------------------------------------------------------------
  // The argument lines a desk writes are read back

  /** A travel's `toString()` line reads back as that travel when its seat table can be sized. */
  lemma ReadTravelOfLine(t: TravelRecord, w: Wire)
    requires WellFormed(t) && SizeTable(t).Ok?
    requires w.open && |w.input| > 0 && w.input[0] == FormatRecord(t)
    ensures ReadTravelSpec(w) == (Ok(Some(t)), w.(input := w.input[1..]))
  {
    ParseFormatRecord(t);
  }

  /** A seat number's decimal line reads back as that seat. */
  lemma ReadIntOfLine(v: int, w: Wire)
    requires InInt32(v)
    requires w.open && |w.input| > 0 && w.input[0] == IntToString(v)
    ensures ReadIntSpec(w) == (Ok(v), w.(input := w.input[1..]))
  {
    ParseIntOfIntToString(v);
  }

  /**
   * The lines of an `assign` request (the company, the travel's line, the
   * passenger's line and the seat) read back as exactly those arguments,
   * leaving whatever follows them unread.
   */
  lemma ReadAssignationOfLines(companyID: string, t: TravelRecord, p: Passenger, seat: int,
                               rest: seq<string>, w: Wire)
    requires WellFormed(t) && SizeTable(t).Ok?
    requires CommaFree(p) && p.dni != "" && p.surname != "" && InInt32(seat)
    requires w.open && w.input == [companyID, FormatRecord(t), ServerPassenger.ToString(p), IntToString(seat)] + rest
    ensures ReadAssignation(w) == (Ok(Assignation(Some(companyID), Some(t), Some(p), seat)), w.(input := rest))
  {
    var w1 := w.(input := w.input[1..]);
    ReadTravelOfLine(t, w1);
    var w2 := w1.(input := w1.input[1..]);
    ParseToString(p);
    var w3 := w2.(input := w2.input[1..]);
    ReadIntOfLine(seat, w3);
    assert w3.input[1..] == rest;
  }

  /** The lines of a `deallocate` or `who_is_sitting` request read back the same way. */
  lemma ReadSeatQueryOfLines(companyID: string, t: TravelRecord, seat: int, rest: seq<string>, w: Wire)
    requires WellFormed(t) && SizeTable(t).Ok? && InInt32(seat)
    requires w.open && w.input == [companyID, FormatRecord(t), IntToString(seat)] + rest
    ensures ReadSeatQuery(w) == (Ok(SeatQuery(Some(companyID), Some(t), seat)), w.(input := rest))
  {
    var w1 := w.(input := w.input[1..]);
    ReadTravelOfLine(t, w1);
    var w2 := w1.(input := w1.input[1..]);
    ReadIntOfLine(seat, w2);
    assert w2.input[1..] == rest;
  }

  /** The lines of a `search_travels_per_date` request: year first, then month, then day. */
  lemma ReadDateQueryOfLines(companyID: string, year: int, month: int, day: int, rest: seq<string>, w: Wire)
    requires InInt32(year) && InInt32(month) && InInt32(day)
    requires w.open && w.input == [companyID, IntToString(year), IntToString(month), IntToString(day)] + rest
    ensures ReadDateQuery(w) == (Ok(DateQuery(Some(companyID), year, month, day)), w.(input := rest))
  {
    var w1 := w.(input := w.input[1..]);
    ReadIntOfLine(year, w1);
    var w2 := w1.(input := w1.input[1..]);
    ReadIntOfLine(month, w2);
    var w3 := w2.(input := w2.input[1..]);
    ReadIntOfLine(day, w3);
    assert w3.input[1..] == rest;
  }

  /**
   * A request whose lines run out before its arguments do: a missing
   * company or travel id is read as null, a missing travel line escapes as
   * a NullPointerException and a missing seat line as a NumberFormatException.
   */
  lemma ReadSeatQueryShort(companyID: string, travelLine: string, w: Wire)
    requires w.open && w.inputEnd == PeerClosed
    ensures w.input == [] ==> ReadSeatQuery(w).0 == Err(NullPointer)
    ensures w.input == [companyID] ==> ReadSeatQuery(w).0 == Err(NullPointer)
    ensures w.input == [companyID, travelLine] && TravelOrNull(ParseTravel(travelLine)).Ok? ==>
      ReadSeatQuery(w).0 == Err(NumberFormat)
  {
  }

  // ---------------------------------------------------------------------------
  // Responses

  /**
   * How a handler ends once its arguments are read: the lines it writes,
   * whether it then closes the connection, and the exception, if any, that
   * leaves it before it can close.
   */
  datatype Reply = Reply(lines: seq<string>, closes: bool, result: Result<()>)

  /** A reply that writes its lines and closes the connection. */
  function Done(lines: seq<string>): Reply {
    Reply(lines, true, Ok(()))
  }

  /** Writing lines on a socket in state `w`; a closed writer drops them. */
  function Printed(w: Wire, lines: seq<string>): Wire {
    if w.open then w.(output := w.output + lines) else w
  }

  /** Writing one line is printing it. */
  lemma PrintedFirst(w: Wire, line: string)
    ensures PrintLineSpec(w, line) == Printed(w, [line])
  {
  }

  /** Writing one more line extends what was printed. */
  lemma PrintedMore(w: Wire, lines: seq<string>, line: string)
    ensures PrintLineSpec(Printed(w, lines), line) == Printed(w, lines + [line])
  {
    if w.open {
      assert w.output + lines + [line] == w.output + (lines + [line]);
    }
  }

  /** Printing nothing leaves the socket as it is. */
  lemma PrintedNone(w: Wire)
    ensures Printed(w, []) == w
  {
    assert w.output + [] == w.output;
  }

  /** Printing two runs of lines is printing them one after the other. */
  lemma PrintedTwice(w: Wire, lines: seq<string>, more: seq<string>)
    ensures Printed(Printed(w, lines), more) == Printed(w, lines + more)
  {
    if w.open {
      assert w.output + lines + more == w.output + (lines + more);
    }
  }

  /** The socket after a reply. */
  function Deliver(w: Wire, reply: Reply): Wire {
    var w1 := Printed(w, reply.lines);
    if reply.closes then w1.(open := false) else w1
  }

  /** `disconnectPushOffice`: `ok` when the id was registered, `nok` otherwise; a null id escapes as a NullPointerException. */
  function DisconnectReply(removed: Result<bool>): (reply: Reply)
    ensures removed.Ok? ==> reply.closes && reply.result.Ok? && |reply.lines| == 1
    ensures removed.Ok? ==> NewPrimitive(reply.lines[0]) == Ok(if removed.value then OkReply else NokReply)
    ensures removed.Err? ==> reply == Reply([], false, Err(removed.exc))
  {
    match removed
    case Err(e) => Reply([], false, Err(e))
    case Ok(b) =>
      var answer := if b then OkReply else NokReply;
      NewPrimitiveOfSymbol(answer, ' ', "");
      Done([Symbol(answer)])
  }

  /** Removing connections removes their sockets and latches and no other. */
  lemma ObjectsShrink(m: map<string, SalesDeskPushConnection>, m': map<string, SalesDeskPushConnection>)
    requires forall id :: id in m' ==> id in m && m'[id] == m[id]
    ensures Objects(m') <= Objects(m)
  {
  }

  /** A socket is no part of a desk. */
  lemma SocketOutsideDesk(desks: SalesDesks, companyID: string, socket: Socket)
    ensures socket !in desks.DeskOf(companyID)
  {
  }

  /**
   * What the registry answers to an assignation, given the tenant map's
   * answer and the push links before it.
   */
  function AssignationAnswer(a: Assignation, outcome: Result<bool>, companies: seq<Option<string>>, links: seq<Link>): Result<bool>
    requires |companies| == |links|
  {
    if a.Complete() then Answered(outcome, companies, links, a.companyID.value, Primitive.Assign, a.travel.value.id)
    else Ok(false)
  }

  /** The same for a deallocation. */
  function DeallocationAnswer(q: SeatQuery, freed: Result<bool>, companies: seq<Option<string>>, links: seq<Link>): Result<bool>
    requires |companies| == |links|
  {
    if q.Complete() then Answered(freed, companies, links, q.companyID.value, Primitive.Deallocate, q.travel.value.id)
    else Ok(false)
  }

  /**
   * `assignationRequest`: `nok` when an argument is null; otherwise the
   * `assign` header, then the travel id only when the registry answered
   * true.  An exception from the registry leaves after the header.
   */
  function AssignationReply(a: Assignation, answer: Result<bool>): Reply {
    if !a.Complete() then Done([Symbol(NokReply)])
    else match answer
      case Err(e) => Reply([Symbol(Primitive.Assign)], false, Err(e))
      case Ok(seated) => Done([Symbol(Primitive.Assign)] + (if seated then [a.travel.value.id] else []))
  }

  /** `deallocationRequest`: the same shape with the `deallocate` header and no passenger. */
  function DeallocationReply(q: SeatQuery, answer: Result<bool>): Reply {
    if !q.Complete() then Done([Symbol(NokReply)])
    else match answer
      case Err(e) => Reply([Symbol(Primitive.Deallocate)], false, Err(e))
      case Ok(freed) => Done([Symbol(Primitive.Deallocate)] + (if freed then [q.travel.value.id] else []))
  }

  /** `searchTravel`: the header, then the travel's line when one was found. */
  function SearchTravelReply(q: TravelQuery, found: Option<TravelRecord>): Reply {
    if q.companyID.None? || q.travelID.None? then Done([Symbol(NokReply)])
    else Done([Symbol(Primitive.SearchTravel)] + (if found.Some? then [FormatRecord(found.value)] else []))
  }

  /** `whoIsSiting`: the header, then the passenger's line when somebody sits there. */
  function WhoIsSitingReply(q: SeatQuery, answer: Result<Option<Passenger>>): Reply {
    if !q.Complete() then Done([Symbol(NokReply)])
    else match answer
      case Err(e) => Reply([Symbol(WhoSitting)], false, Err(e))
      case Ok(p) => Done([Symbol(WhoSitting)] + (if p.Some? then [ServerPassenger.ToString(p.value)] else []))
  }

  /** The `toString()` lines of travels, in order. */
  function RecordLines(records: seq<TravelRecord>): (lines: seq<string>)
    ensures |lines| == |records| && forall i :: 0 <= i < |records| ==> lines[i] == FormatRecord(records[i])
  {
    seq(|records|, i requires 0 <= i < |records| => FormatRecord(records[i]))
  }

  /** `searchTravelsPerDate`: the header, then one line per travel on that day. */
  function PerDateReply(q: DateQuery, found: Option<seq<TravelRecord>>): Reply {
    if q.companyID.None? then Done([Symbol(NokReply)])
    else Done([Symbol(SearchTravelsPerDate)] + (if found.Some? then RecordLines(found.value) else []))
  }

  /** One more travel's line after the lines of the travels before it. */
  lemma RecordLinesStep(ts: seq<Travel>, i: nat)
    requires i < |ts|
    ensures RecordLines(Records(ts[..i + 1])) == RecordLines(Records(ts[..i])) + [FormatRecord(ts[i].record)]
  {
    var a, b := RecordLines(Records(ts[..i + 1])), RecordLines(Records(ts[..i])) + [FormatRecord(ts[i].record)];
    assert |a| == |b|;
    forall k | 0 <= k < |a|
      ensures a[k] == b[k]
    {
      assert ts[..i + 1][k] == ts[k];
    }
  }

  /** The records of travels. */
  function Records(ts: seq<Travel>): (rs: seq<TravelRecord>)
    ensures |rs| == |ts| && forall i :: 0 <= i < |ts| ==> rs[i] == ts[i].record
  {
    seq(|ts|, i requires 0 <= i < |ts| => ts[i].record)
  }

  /**
   * The reply to `search_travels_per_date` reads back: its header is the
   * request's symbol and each further line parses as the travel it stands
   * for, in order.
   */
  lemma PerDateReplyParses(q: DateQuery, found: seq<TravelRecord>)
    requires q.companyID.Some?
    requires forall k :: 0 <= k < |found| ==> WellFormed(found[k])
    ensures var lines := PerDateReply(q, Some(found)).lines;
      |lines| == 1 + |found| && NewPrimitive(lines[0]) == Ok(SearchTravelsPerDate) &&
      forall k :: 0 <= k < |found| ==> ParseRecord(lines[k + 1]) == Ok(found[k])
  {
    NewPrimitiveOfSymbol(SearchTravelsPerDate, ' ', "");
    forall k | 0 <= k < |found|
      ensures ParseRecord(PerDateReply(q, Some(found)).lines[k + 1]) == Ok(found[k])
    {
      ParseFormatRecord(found[k]);
    }
  }

  /**
   * The reply to `who_is_sitting` reads back: the header, then the
   * passenger's line exactly when somebody sits there.
   */
  lemma WhoIsSitingReplyParses(q: SeatQuery, sitting: Option<Passenger>)
    requires q.Complete()
    requires sitting.Some? ==> CommaFree(sitting.value) && sitting.value.dni != "" && sitting.value.surname != ""
    ensures var reply := WhoIsSitingReply(q, Ok(sitting));
      reply.closes && reply.result.Ok? && |reply.lines| == (if sitting.Some? then 2 else 1) &&
      NewPrimitive(reply.lines[0]) == Ok(WhoSitting) &&
      (sitting.Some? ==> ParsePassenger(reply.lines[1]) == Ok(sitting.value))
  {
    NewPrimitiveOfSymbol(WhoSitting, ' ', "");
    if sitting.Some? {
      ParseToString(sitting.value);
    }
  }

  /**
   * The reply to `assign` reads back: a complete request gets its header,
   * then the travel id exactly when the registry answered true; an
   * incomplete one gets `nok` alone.
   */
  lemma AssignReplyParses(a: Assignation, done: bool)
    ensures var reply := AssignationReply(a, Ok(done));
      NewPrimitive(reply.lines[0]) == Ok(if a.Complete() then Primitive.Assign else NokReply) &&
      |reply.lines| == (if a.Complete() && done then 2 else 1) &&
      (a.Complete() && done ==> reply.lines[1] == a.travel.value.id)
  {
    NewPrimitiveOfSymbol(Primitive.Assign, ' ', "");
    NewPrimitiveOfSymbol(NokReply, ' ', "");
  }

  /** The reply to `deallocate` reads back in the same way. */
  lemma DeallocationReplyParses(q: SeatQuery, done: bool)
    ensures var reply := DeallocationReply(q, Ok(done));
      NewPrimitive(reply.lines[0]) == Ok(if q.Complete() then Primitive.Deallocate else NokReply) &&
      |reply.lines| == (if q.Complete() && done then 2 else 1) &&
      (q.Complete() && done ==> reply.lines[1] == q.travel.value.id)
  {
    NewPrimitiveOfSymbol(Primitive.Deallocate, ' ', "");
    NewPrimitiveOfSymbol(NokReply, ' ', "");
  }

  /**
   * The request `run` reads from a socket in state `w0`, with the socket's
   * state after the request line; none when the line cannot be read or
   * parsed.
   */
  function Dispatched(w0: Wire): Option<(Primitive, Wire)> {
    var (line, w) := ReadLineSpec(w0);
    if line.Ok? && line.value.Some? && NewPrimitive(line.value.value).Ok?
    then Some((NewPrimitive(line.value.value).value, w))
    else None
  }

  /** The requests `run` has a case for; every other primitive is read and left unanswered. */
  predicate Handled(p: Primitive) {
    p.ConnectPush? || p.DisconnectPush? || p.Assign? || p.Deallocate? ||
    p.SearchTravel? || p.WhoSitting? || p.SearchTravelsPerDate?
  }

  /** `run` catches an IOException (and an InterruptedException); anything else escapes it. */
  function Caught(r: Result<()>): (c: Result<()>)
    ensures c.Err? <==> r.Err? && r.exc != IOException
    ensures c.Err? ==> c == r
  {
    if r == Err(IOException) then Ok(()) else r
  }

  // ---------------------------------------------------------------------------
  // The handler

  class OfficeServer {
    const registry: OfficesServer
    const socket: Socket

    constructor (registry: OfficesServer, socket: Socket)
      ensures this.registry == registry && this.socket == socket
    {
      this.registry := registry;
      this.socket := socket;
    }

    /** The registry is valid and this connection is not one of its push channels. */
    ghost predicate Valid()
      reads this, registry, registry.salesDesks
    {
      registry.Valid() && socket !in Objects(registry.connections)
    }

    // --- reading

    /** `readTravelFromInput()`. */
    method ReadTravelFromInput() returns (r: Result<Option<TravelRecord>>)
      modifies socket
      ensures (r, socket.State()) == ReadTravelSpec(old(socket.State()))
    {
      var line := socket.ReadLine();
      if line.Err? {
        return Err(line.exc);
      }
      if line.value.None? {
        return Err(NullPointer);
      }
      r := TravelOrNull(ParseTravel(line.value.value));
    }

    /** `readPassengerFromInput()`. */
    method ReadPassengerFromInput() returns (r: Result<Option<Passenger>>)
      modifies socket
      ensures (r, socket.State()) == ReadPassengerSpec(old(socket.State()))
    {
      var line := socket.ReadLine();
      if line.Err? {
        return Err(line.exc);
      }
      if line.value.None? {
        return Err(NullPointer);
      }
      var p := ParsePassenger(line.value.value);
      r := Ok(if p.Ok? then Some(p.value) else None);
    }

    /** `Integer.parseInt(influx.readLine())`. */
    method ReadInt() returns (r: Result<int>)
      modifies socket
      ensures (r, socket.State()) == ReadIntSpec(old(socket.State()))
    {
      var line := socket.ReadLine();
      if line.Err? {
        return Err(line.exc);
      }
      if line.value.None? {
        return Err(NumberFormat);
      }
      r := ParseInt(line.value.value);
    }

    /** The reads of `assignationRequest`. */
    method ReadAssignationArgs() returns (r: Result<Assignation>)
      modifies socket
      ensures (r, socket.State()) == ReadAssignation(old(socket.State()))
    {
      var companyID := socket.ReadLine();
      if companyID.Err? {
        return Err(companyID.exc);
      }
      var travel := ReadTravelFromInput();
      if travel.Err? {
        return Err(travel.exc);
      }
      var passenger := ReadPassengerFromInput();
      if passenger.Err? {
        return Err(passenger.exc);
      }
      var seat := ReadInt();
      if seat.Err? {
        return Err(seat.exc);
      }
      r := Ok(Assignation(companyID.value, travel.value, passenger.value, seat.value));
    }

    /** The reads of `deallocationRequest` and `whoIsSiting`. */
    method ReadSeatQueryArgs() returns (r: Result<SeatQuery>)
      modifies socket
      ensures (r, socket.State()) == ReadSeatQuery(old(socket.State()))
    {
      var companyID := socket.ReadLine();
      if companyID.Err? {
        return Err(companyID.exc);
      }
      var travel := ReadTravelFromInput();
      if travel.Err? {
        return Err(travel.exc);
      }
      var seat := ReadInt();
      if seat.Err? {
        return Err(seat.exc);
      }
      r := Ok(SeatQuery(companyID.value, travel.value, seat.value));
    }

    /** The reads of `searchTravel`. */
    method ReadTravelQueryArgs() returns (r: Result<TravelQuery>)
      modifies socket
      ensures (r, socket.State()) == ReadTravelQuery(old(socket.State()))
    {
      var companyID := socket.ReadLine();
      if companyID.Err? {
        return Err(companyID.exc);
      }
      var travelID := socket.ReadLine();
      if travelID.Err? {
        return Err(travelID.exc);
      }
      r := Ok(TravelQuery(companyID.value, travelID.value));
    }

    /** The reads of `searchTravelsPerDate`. */
    method ReadDateQueryArgs() returns (r: Result<DateQuery>)
      modifies socket
      ensures (r, socket.State()) == ReadDateQuery(old(socket.State()))
    {
      var companyID := socket.ReadLine();
      if companyID.Err? {
        return Err(companyID.exc);
      }
      var year := ReadInt();
      if year.Err? {
        return Err(year.exc);
      }
      var month := ReadInt();
      if month.Err? {
        return Err(month.exc);
      }
      var day := ReadInt();
      if day.Err? {
        return Err(day.exc);
      }
      r := Ok(DateQuery(companyID.value, year.value, month.value, day.value));
    }

    // --- what the registry answers

    /** What the tenant map answers to a complete assignation, in the current state. */
    ghost function AssignationOutcome(a: Assignation): Result<bool>
      reads registry.salesDesks, if a.companyID.Some? then registry.salesDesks.DeskOf(a.companyID.value) else {}
    {
      if a.Complete() then registry.salesDesks.AssignOutcome(a.companyID.value, a.travel.value.id, a.passenger.value, a.seat)
      else Ok(false)
    }

    /** What the tenant map answers to a complete deallocation, in the current state. */
    ghost function DeallocationOutcome(q: SeatQuery): Result<bool>
      reads registry.salesDesks, if q.companyID.Some? then registry.salesDesks.DeskOf(q.companyID.value) else {}
    {
      if q.Complete() then registry.salesDesks.DeallocateOutcome(q.companyID.value, q.travel.value.id, q.seat)
      else Ok(false)
    }

    // --- the handlers

    /** The `nok` answer to a request with a null argument. */
    method Refuse()
      modifies socket
      ensures socket.State() == Deliver(old(socket.State()), Done([Symbol(NokReply)]))
    {
      socket.PrintLine(Symbol(NokReply));
      PrintedFirst(old(socket.State()), Symbol(NokReply));
      socket.Close();
    }

    /**
     * `assignationRequest()`: reads the company, the travel, the passenger
     * and the seat, then answers them.
     */
    method AssignationRequest(order: seq<string>) returns (r: Result<()>)
      requires Valid() && IsOrder(order, registry.connections)
      modifies socket, registry.salesDesks.DeskOf(LineAt(socket.State(), 0)), Objects(registry.connections)
      ensures Valid() && registry.connections == old(registry.connections)
      ensures registry.salesDesks.desks == old(registry.salesDesks.desks)
      ensures var (a, w) := ReadAssignation(old(socket.State()));
        if a.Err? then r == Err(a.exc) && socket.State() == w
        else
          var reply := AssignationReply(a.value, AssignationAnswer(a.value, old(AssignationOutcome(a.value)),
                                        CompaniesAt(registry.connections, order), old(LinksAt(registry.connections, order))));
          r == reply.result && socket.State() == Deliver(w, reply)
    {
      ghost var spec := ReadAssignation(socket.State());
      ghost var outcome := if spec.0.Ok? then AssignationOutcome(spec.0.value) else Ok(false);
      ghost var links := LinksAt(registry.connections, order);
      ReadAssignationCompany(socket.State());
      var a := ReadAssignationArgs();
      if a.Err? {
        return Err(a.exc);
      }
      assert AssignationOutcome(a.value) == outcome && LinksAt(registry.connections, order) == links;
      r := Assignment(a.value, order);
    }

    /**
     * The rest of `assignationRequest()`: `nok` when an argument is null;
     * otherwise `assign`, the registry's `assign`, and the travel id when it
     * answered true.  An exception from the registry leaves after the header.
     */
    method Assignment(a: Assignation, order: seq<string>) returns (r: Result<()>)
      requires Valid() && IsOrder(order, registry.connections)
      modifies socket, Objects(registry.connections),
               if a.companyID.Some? then registry.salesDesks.DeskOf(a.companyID.value) else {}
      ensures Valid() && registry.connections == old(registry.connections)
      ensures registry.salesDesks.desks == old(registry.salesDesks.desks)
      ensures var reply := AssignationReply(a, AssignationAnswer(a, old(AssignationOutcome(a)),
                                            CompaniesAt(registry.connections, order), old(LinksAt(registry.connections, order))));
        r == reply.result && socket.State() == Deliver(old(socket.State()), reply)
    {
      if !a.Complete() {
        Refuse();
        return Ok(());
      }
      ghost var outcome := AssignationOutcome(a);
      ghost var links := LinksAt(registry.connections, order);
      ghost var w := socket.State();
      var travelID := a.travel.value.id;
      socket.PrintLine(Symbol(Primitive.Assign));
      PrintedFirst(w, Symbol(Primitive.Assign));
      ghost var header := socket.State();
      SocketOutsideDesk(registry.salesDesks, a.companyID.value, socket);
      assert registry.salesDesks.AssignOutcome(a.companyID.value, travelID, a.passenger.value, a.seat) == outcome;
      assert LinksAt(registry.connections, order) == links;
      var answer := registry.Assign(a.companyID.value, travelID, a.passenger.value, a.seat, order);
      assert answer == AssignationAnswer(a, outcome, CompaniesAt(registry.connections, order), links);
      assert socket.State() == header;
      if answer.Err? {
        return Err(answer.exc);
      }
      if answer.value {
        socket.PrintLine(travelID);
        PrintedMore(w, [Symbol(Primitive.Assign)], travelID);
      }
      socket.Close();
      r := Ok(());
    }

    /**
     * `deallocationRequest()`: reads the company, the travel and the seat,
     * then answers them.
     */
    method DeallocationRequest(order: seq<string>) returns (r: Result<()>)
      requires Valid() && IsOrder(order, registry.connections)
      modifies socket, registry.salesDesks.DeskOf(LineAt(socket.State(), 0)), Objects(registry.connections)
      ensures Valid() && registry.connections == old(registry.connections)
      ensures registry.salesDesks.desks == old(registry.salesDesks.desks)
      ensures var (q, w) := ReadSeatQuery(old(socket.State()));
        if q.Err? then r == Err(q.exc) && socket.State() == w
        else
          var reply := DeallocationReply(q.value, DeallocationAnswer(q.value, old(DeallocationOutcome(q.value)),
                                         CompaniesAt(registry.connections, order), old(LinksAt(registry.connections, order))));
          r == reply.result && socket.State() == Deliver(w, reply)
    {
      ghost var spec := ReadSeatQuery(socket.State());
      ghost var freed := if spec.0.Ok? then DeallocationOutcome(spec.0.value) else Ok(false);
      ghost var links := LinksAt(registry.connections, order);
      ReadSeatQueryCompany(socket.State());
      var q := ReadSeatQueryArgs();
      if q.Err? {
        return Err(q.exc);
      }
      assert DeallocationOutcome(q.value) == freed && LinksAt(registry.connections, order) == links;
      r := Deallocation(q.value, order);
    }

    /**
     * The rest of `deallocationRequest()`: `nok` when an argument is null;
     * otherwise `deallocate`, the registry's `deallocate`, and the travel id
     * when it answered true.
     */
    method Deallocation(q: SeatQuery, order: seq<string>) returns (r: Result<()>)
      requires Valid() && IsOrder(order, registry.connections)
      modifies socket, Objects(registry.connections),
               if q.companyID.Some? then registry.salesDesks.DeskOf(q.companyID.value) else {}
      ensures Valid() && registry.connections == old(registry.connections)
      ensures registry.salesDesks.desks == old(registry.salesDesks.desks)
      ensures var reply := DeallocationReply(q, DeallocationAnswer(q, old(DeallocationOutcome(q)),
                                             CompaniesAt(registry.connections, order), old(LinksAt(registry.connections, order))));
        r == reply.result && socket.State() == Deliver(old(socket.State()), reply)
    {
      if !q.Complete() {
        Refuse();
        return Ok(());
      }
      ghost var freed := DeallocationOutcome(q);
      ghost var links := LinksAt(registry.connections, order);
      ghost var w := socket.State();
      var travelID := q.travel.value.id;
      socket.PrintLine(Symbol(Primitive.Deallocate));
      PrintedFirst(w, Symbol(Primitive.Deallocate));
      ghost var header := socket.State();
      SocketOutsideDesk(registry.salesDesks, q.companyID.value, socket);
      assert registry.salesDesks.DeallocateOutcome(q.companyID.value, travelID, q.seat) == freed;
      assert LinksAt(registry.connections, order) == links;
      var answer := registry.Deallocate(q.companyID.value, travelID, q.seat, order);
      assert answer == DeallocationAnswer(q, freed, CompaniesAt(registry.connections, order), links);
      assert socket.State() == header;
      if answer.Err? {
        return Err(answer.exc);
      }
      if answer.value {
        socket.PrintLine(travelID);
        PrintedMore(w, [Symbol(Primitive.Deallocate)], travelID);
      }
      socket.Close();
      r := Ok(());
    }

    /** What the registry answers to a complete seat query, in the current state. */
    ghost function SittingAnswer(q: SeatQuery): Result<Option<Passenger>>
      reads registry, registry.salesDesks, if q.companyID.Some? then registry.salesDesks.DeskOf(q.companyID.value) else {}
    {
      if q.Complete() then registry.WhoIsSitting(q.companyID.value, q.travel.value.id, q.seat) else Ok(None)
    }

    /**
     * `whoIsSiting()`: reads the company, the travel and the seat; writes
     * `who_is_sitting` and the passenger's line when somebody sits there.
     * Nothing in the registry changes.
     */
    method WhoIsSitingRequest() returns (r: Result<()>)
      modifies socket
      ensures var (q, w) := ReadSeatQuery(old(socket.State()));
        if q.Err? then r == Err(q.exc) && socket.State() == w
        else
          var reply := WhoIsSitingReply(q.value, SittingAnswer(q.value));
          r == reply.result && socket.State() == Deliver(w, reply)
    {
      var q := ReadSeatQueryArgs();
      if q.Err? {
        return Err(q.exc);
      }
      r := Sitting(q.value);
    }

    /**
     * The rest of `whoIsSiting()`: `nok` when an argument is null;
     * otherwise `who_is_sitting`, then the passenger's line.  An exception
     * from the registry leaves after the header.
     */
    method Sitting(q: SeatQuery) returns (r: Result<()>)
      modifies socket
      ensures var reply := WhoIsSitingReply(q, SittingAnswer(q));
        r == reply.result && socket.State() == Deliver(old(socket.State()), reply)
    {
      ghost var w := socket.State();
      if !q.Complete() {
        Refuse();
        return Ok(());
      }
      SocketOutsideDesk(registry.salesDesks, q.companyID.value, socket);
      socket.PrintLine(Symbol(WhoSitting));
      PrintedFirst(w, Symbol(WhoSitting));
      var answer := registry.WhoIsSitting(q.companyID.value, q.travel.value.id, q.seat);
      if answer.Err? {
        return Err(answer.exc);
      }
      if answer.value.Some? {
        socket.PrintLine(ServerPassenger.ToString(answer.value.value));
        PrintedMore(w, [Symbol(WhoSitting)], ServerPassenger.ToString(answer.value.value));
      }
      socket.Close();
      r := Ok(());
    }

    /** The record of the travel a query names, if the registry has it. */
    ghost function FoundTravel(q: TravelQuery): Option<TravelRecord>
      reads registry, registry.salesDesks
    {
      if q.companyID.None? || q.travelID.None? then None
      else
        var t := registry.SearchTravel(q.companyID.value, q.travelID.value);
        if t.Some? then Some(t.value.record) else None
    }

    /**
     * `searchTravel()`: reads the company and the travel id; writes
     * `search_travel` and the travel's line when the company has it.
     */
    method SearchTravelRequest() returns (r: Result<()>)
      modifies socket
      ensures var (q, w) := ReadTravelQuery(old(socket.State()));
        if q.Err? then r == Err(q.exc) && socket.State() == w
        else r.Ok? && socket.State() == Deliver(w, SearchTravelReply(q.value, FoundTravel(q.value)))
    {
      var q := ReadTravelQueryArgs();
      if q.Err? {
        return Err(q.exc);
      }
      ghost var w := socket.State();
      if q.value.companyID.None? || q.value.travelID.None? {
        Refuse();
        return Ok(());
      }
      var travel := registry.SearchTravel(q.value.companyID.value, q.value.travelID.value);
      socket.PrintLine(Symbol(Primitive.SearchTravel));
      PrintedFirst(w, Symbol(Primitive.SearchTravel));
      if travel.Some? {
        socket.PrintLine(FormatRecord(travel.value.record));
        PrintedMore(w, [Symbol(Primitive.SearchTravel)], FormatRecord(travel.value.record));
      }
      socket.Close();
      r := Ok(());
    }

    /** The records of the company's travels on the queried day, if it has a desk. */
    ghost function TravelsOnDate(q: DateQuery): Option<seq<TravelRecord>>
      reads registry, registry.salesDesks
    {
      if q.companyID.None? then None
      else
        var ts := registry.SearchTravelsPerDate(q.companyID.value, q.day, q.month, q.year);
        if ts.Some? then Some(Records(ts.value)) else None
    }

    /**
     * `searchTravelsPerDate()`: reads the company, the year, the month and
     * the day; writes `search_travels_per_date` and one line per travel of
     * the company on that day.
     */
    method SearchTravelsPerDateRequest() returns (r: Result<()>)
      modifies socket
      ensures var (q, w) := ReadDateQuery(old(socket.State()));
        if q.Err? then r == Err(q.exc) && socket.State() == w
        else r.Ok? && socket.State() == Deliver(w, PerDateReply(q.value, TravelsOnDate(q.value)))
    {
      var q := ReadDateQueryArgs();
      if q.Err? {
        return Err(q.exc);
      }
      PerDate(q.value);
      r := Ok(());
    }

    /**
     * The rest of `searchTravelsPerDate()`: `nok` when the company is null;
     * otherwise the header, then one line per travel.
     */
    method PerDate(q: DateQuery)
      modifies socket
      ensures socket.State() == Deliver(old(socket.State()), PerDateReply(q, TravelsOnDate(q)))
    {
      ghost var w := socket.State();
      if q.companyID.None? {
        Refuse();
        return;
      }
      var header := Symbol(SearchTravelsPerDate);
      socket.PrintLine(header);
      PrintedFirst(w, header);
      var travels := registry.SearchTravelsPerDate(q.companyID.value, q.day, q.month, q.year);
      if travels.Some? && |travels.value| > 0 {
        PrintRecords(travels.value);
        PrintedTwice(w, [header], RecordLines(Records(travels.value)));
      }
      socket.Close();
    }

    /** The `for (Travel travel : travels)` loop: one line per travel, in order. */
    method PrintRecords(ts: seq<Travel>)
      modifies socket
      ensures socket.State() == Printed(old(socket.State()), RecordLines(Records(ts)))
    {
      ghost var w := socket.State();
      PrintedNone(w);
      for i := 0 to |ts|
        invariant socket.State() == Printed(w, RecordLines(Records(ts[..i])))
      {
        socket.PrintLine(FormatRecord(ts[i].record));
        PrintedMore(w, RecordLines(Records(ts[..i])), FormatRecord(ts[i].record));
        RecordLinesStep(ts, i);
      }
      assert ts[..|ts|] == ts;
    }

    /**
     * `disconnectPushOffice()`: reads a connection id and has the registry
     * remove it; writes `ok` when it was registered and `nok` otherwise,
     * then closes.  A missing id line escapes as a NullPointerException.
     */
    method DisconnectPushOffice() returns (r: Result<()>)
      requires Valid()
      modifies socket, registry,
               if LineAt(socket.State(), 0) in registry.connections
               then {registry.connections[LineAt(socket.State(), 0)].socket as object,
                     registry.connections[LineAt(socket.State(), 0)].latch}
               else {}
      ensures Valid() && registry.salesDesks.desks == old(registry.salesDesks.desks)
      ensures var (line, w) := ReadLineSpec(old(socket.State()));
        if line.Err? then r == Err(line.exc) && socket.State() == w && registry.connections == old(registry.connections)
        else
          var removed := if line.value.None? then Err(NullPointer) else Ok(line.value.value in old(registry.connections));
          var reply := DisconnectReply(removed);
          r == reply.result && socket.State() == Deliver(w, reply) &&
          registry.connections == (if removed == Ok(true) then old(registry.connections) - {line.value.value}
                                   else old(registry.connections))
      ensures var line := ReadLineSpec(old(socket.State())).0;
        line.Ok? && line.value.Some? && line.value.value in old(registry.connections) ==>
          var conn := old(registry.connections)[line.value.value];
          conn.socket.State() == old(conn.socket.State()).(open := false) &&
          conn.latch.count == if old(conn.latch.count) > 0 then old(conn.latch.count) - 1 else 0
    {
      var connectionID := socket.ReadLine();
      if connectionID.Err? {
        return Err(connectionID.exc);
      }
      r := Disconnection(connectionID.value);
    }

    /** The rest of `disconnectPushOffice()`, once the id line is read. */
    method Disconnection(connectionID: Option<string>) returns (r: Result<()>)
      requires Valid()
      modifies socket, registry,
               if connectionID.Some? && connectionID.value in registry.connections
               then {registry.connections[connectionID.value].socket as object,
                     registry.connections[connectionID.value].latch}
               else {}
      ensures Valid() && registry.salesDesks.desks == old(registry.salesDesks.desks)
      ensures var removed := if connectionID.None? then Err(NullPointer) else Ok(connectionID.value in old(registry.connections));
        var reply := DisconnectReply(removed);
        r == reply.result && socket.State() == Deliver(old(socket.State()), reply) &&
        registry.connections == (if removed == Ok(true) then old(registry.connections) - {connectionID.value}
                                 else old(registry.connections))
      ensures connectionID.Some? && connectionID.value in old(registry.connections) ==>
        var conn := old(registry.connections)[connectionID.value];
        conn.socket.State() == old(conn.socket.State()).(open := false) &&
        conn.latch.count == if old(conn.latch.count) > 0 then old(conn.latch.count) - 1 else 0
    {
      ghost var w := socket.State();
      ghost var before := registry.connections;
      var removed := registry.RemovePushConnection(connectionID);
      assert socket.State() == w;
      ObjectsShrink(before, registry.connections);
      if removed.Err? {
        return Err(removed.exc);
      }
      var answer := if removed.value then OkReply else NokReply;
      socket.PrintLine(Symbol(answer));
      PrintedFirst(w, Symbol(answer));
      socket.Close();
      r := Ok(());
    }

    /**
     * `pushConnectionOffice()`: reads the company, draws a connection id,
     * sends it to the desk with `new_conection_id` and, when the desk
     * answers `ok`, files the connection with the registry (creating the
     * company's desk if it has none); any other answer ends the connection.
     * A desk that closed before sending its company reads as `nok`.
     */
    method PushConnectionOffice(draws: seq<int>, files: StoreFiles) returns (r: Result<()>)
      requires Valid() && ValidDraws(draws)
      modifies socket, registry, registry.salesDesks
      ensures registry.Valid()
      ensures forall c :: c in old(registry.salesDesks.desks) ==>
        c in registry.salesDesks.desks && registry.salesDesks.desks[c] == old(registry.salesDesks.desks[c])
      ensures var (companyID, w) := ReadLineSpec(old(socket.State()));
        if companyID.Err? then
          r == Err(companyID.exc) && socket.State() == w &&
          registry.connections == old(registry.connections) && registry.salesDesks.desks == old(registry.salesDesks.desks)
        else
          var id := Drawn(draws);
          var exchange := ExchangeSpec(w, NewConnectionId, WaitTimeClient, Some(id), []);
          if exchange.0 == Ok(OkReply) then
            companyID.value.Some? && socket.State() == exchange.2 &&
            var company := companyID.value.value;
            var loaded := if old(registry.salesDesks.ExistsDesk(company)) then Ok(()) else LoadOutcome(files);
            r == loaded &&
            if loaded.Err? then
              registry.connections == old(registry.connections) && registry.salesDesks.desks == old(registry.salesDesks.desks)
            else
              id in registry.connections &&
              registry.connections == old(registry.connections)[id := registry.connections[id]] &&
              registry.connections[id].connectionID == id &&
              registry.connections[id].companyID == Some(company) &&
              registry.connections[id].socket == socket &&
              fresh(registry.connections[id].latch) && registry.connections[id].latch.count == 1 &&
              registry.salesDesks.ExistsDesk(company)
          else
            r == (if exchange.0.Err? then Err(exchange.0.exc) else Ok(())) &&
            socket.State() == (if exchange.0.Err? then exchange.2 else exchange.2.(open := false)) &&
            registry.connections == old(registry.connections) && registry.salesDesks.desks == old(registry.salesDesks.desks)
      ensures var (companyID, w) := ReadLineSpec(old(socket.State()));
        companyID == Ok(None) ==>
          r == Ok(()) && registry.connections == old(registry.connections) &&
          socket.State() == w.(output := w.output + RequestFrame(NewConnectionId, Some(Drawn(draws))),
                               timeout := WaitTimeClient, open := false)
    {
      ghost var w := socket.State();
      var companyID := socket.ReadLine();
      if companyID.Err? {
        return Err(companyID.exc);
      }
      r := Connection(companyID.value, draws, files);
      if companyID.value.None? {
        ExchangePeerClosed(w, NewConnectionId, WaitTimeClient, Some(Drawn(draws)), []);
        ExchangeWrites(w, NewConnectionId, WaitTimeClient, Some(Drawn(draws)), []);
      }
    }

    /**
     * The rest of `pushConnectionOffice()`, once the company is read (`None`
     * when the desk had closed the stream, which then has nothing more).
     */
    method Connection(companyID: Option<string>, draws: seq<int>, files: StoreFiles) returns (r: Result<()>)
      requires Valid() && ValidDraws(draws)
      requires companyID.None? ==> socket.State().input == [] && socket.State().inputEnd == PeerClosed
      modifies socket, registry, registry.salesDesks
      ensures registry.Valid()
      ensures forall c :: c in old(registry.salesDesks.desks) ==>
        c in registry.salesDesks.desks && registry.salesDesks.desks[c] == old(registry.salesDesks.desks[c])
      ensures var id := Drawn(draws);
        var exchange := ExchangeSpec(old(socket.State()), NewConnectionId, WaitTimeClient, Some(id), []);
        if exchange.0 == Ok(OkReply) then
          companyID.Some? && socket.State() == exchange.2 &&
          var loaded := if old(registry.salesDesks.ExistsDesk(companyID.value)) then Ok(()) else LoadOutcome(files);
          r == loaded &&
          if loaded.Err? then
            registry.connections == old(registry.connections) && registry.salesDesks.desks == old(registry.salesDesks.desks)
          else
            id in registry.connections &&
            registry.connections == old(registry.connections)[id := registry.connections[id]] &&
            registry.connections[id].connectionID == id &&
            registry.connections[id].companyID == companyID &&
            registry.connections[id].socket == socket &&
            fresh(registry.connections[id].latch) && registry.connections[id].latch.count == 1 &&
            registry.salesDesks.ExistsDesk(companyID.value)
        else
          r == (if exchange.0.Err? then Err(exchange.0.exc) else Ok(())) &&
          socket.State() == (if exchange.0.Err? then exchange.2 else exchange.2.(open := false)) &&
          registry.connections == old(registry.connections) && registry.salesDesks.desks == old(registry.salesDesks.desks)
    {
      ghost var w := socket.State();
      var connectionClose := new Latch(1);
      var connectionID := registry.CreateConnectionID(draws);
      var conn := new SalesDeskPushConnection(connectionID, companyID, socket, connectionClose);
      var response := conn.SendRequestWithoutResults(NewConnectionId, WaitTimeClient, Some(connectionID));
      if response.Err? {
        return Err(response.exc);
      }
      if response.value == OkReply {
        if companyID.None? {
          ExchangeWrites(w, NewConnectionId, WaitTimeClient, Some(connectionID), []);
          if w.open {
            ExchangePeerClosed(w, NewConnectionId, WaitTimeClient, Some(connectionID), []);
          }
          assert false;
        }
        assert forall id :: id in registry.connections ==> registry.connections[id].socket in Objects(registry.connections);
        r := registry.NewPushConnection(conn, files);
      } else {
        conn.EndConnection();
        r := Ok(());
      }
    }

    /**
     * `run()`: reads the request line and hands the connection to the
     * request's handler (`Handle`).  An IOException (and an
     * InterruptedException) is caught; a request `run` has no case for is
     * read and left unanswered.  The replies of the three queries are
     * stated here as well; those of the requests that change the registry
     * are stated by `Handle`, on the socket just after the request line.
     */
    method Run(order: seq<string>, draws: seq<int>, files: StoreFiles) returns (r: Result<()>)
      requires Valid() && IsOrder(order, registry.connections) && ValidDraws(draws)
      modifies socket, registry, registry.salesDesks, registry.salesDesks.DeskOf(LineAt(socket.State(), 1)),
               Objects(registry.connections)
      ensures registry.Valid()
      ensures r.Err? ==> r.exc != IOException
      ensures var (line, w) := ReadLineSpec(old(socket.State()));
        var request := if line.Ok? && line.value.Some? then NewPrimitive(line.value.value) else Err(NullPointer);
        line.Err? || line.value.None? || request.Err? || !Handled(request.value) ==>
          r == (if line.Err? || request.Ok? then Ok(()) else Err(request.exc)) &&
          socket.State() == w && registry.connections == old(registry.connections) &&
          registry.salesDesks.desks == old(registry.salesDesks.desks)
      // `search_travel`: the handler's reads, then its reply; nothing else changes
      ensures var d := Dispatched(old(socket.State()));
        d.Some? && d.value.0 == Primitive.SearchTravel ==>
          var (q, w) := ReadTravelQuery(d.value.1);
          registry.connections == old(registry.connections) && registry.salesDesks.desks == old(registry.salesDesks.desks) &&
          if q.Err? then r == Caught(Err(q.exc)) && socket.State() == w
          else r.Ok? && socket.State() == Deliver(w, SearchTravelReply(q.value, FoundTravel(q.value)))
      // `who_is_sitting`
      ensures var d := Dispatched(old(socket.State()));
        d.Some? && d.value.0 == WhoSitting ==>
          var (q, w) := ReadSeatQuery(d.value.1);
          registry.connections == old(registry.connections) && registry.salesDesks.desks == old(registry.salesDesks.desks) &&
          if q.Err? then r == Caught(Err(q.exc)) && socket.State() == w
          else
            var reply := WhoIsSitingReply(q.value, SittingAnswer(q.value));
            r == Caught(reply.result) && socket.State() == Deliver(w, reply)
      // `search_travels_per_date`
      ensures var d := Dispatched(old(socket.State()));
        d.Some? && d.value.0 == SearchTravelsPerDate ==>
          var (q, w) := ReadDateQuery(d.value.1);
          registry.connections == old(registry.connections) && registry.salesDesks.desks == old(registry.salesDesks.desks) &&
          if q.Err? then r == Caught(Err(q.exc)) && socket.State() == w
          else r.Ok? && socket.State() == Deliver(w, PerDateReply(q.value, TravelsOnDate(q.value)))
    {
      ghost var w0 := socket.State();
      var line := socket.ReadLine();
      if line.Err? {
        return Ok(());
      }
      if line.value.None? {
        return Err(NullPointer);
      }
      var request := NewPrimitive(line.value.value);
      if request.Err? {
        return Err(request.exc);
      }
      assert Dispatched(w0) == Some((request.value, socket.State()));
      var handled := Handle(request.value, order, draws, files);
      r := Caught(handled);
    }

    /**
     * The `switch` of `run()`: hands the connection, its request line
     * already read, to the handler of a request `run` has a case for.
     */
    method Handle(p: Primitive, order: seq<string>, draws: seq<int>, files: StoreFiles) returns (handled: Result<()>)
      requires Valid() && IsOrder(order, registry.connections) && ValidDraws(draws)
      modifies socket, registry, registry.salesDesks, registry.salesDesks.DeskOf(LineAt(socket.State(), 0)),
               Objects(registry.connections)
      ensures registry.Valid()
      // a request with no case: nothing is written and nothing changes
      ensures !Handled(p) ==>
        handled == Ok(()) && socket.State() == old(socket.State()) && registry.connections == old(registry.connections) &&
        registry.salesDesks.desks == old(registry.salesDesks.desks)
      // `search_travel`: the handler's reads, then its reply; nothing else changes
      ensures p == Primitive.SearchTravel ==>
          var (q, w) := ReadTravelQuery(old(socket.State()));
          registry.connections == old(registry.connections) && registry.salesDesks.desks == old(registry.salesDesks.desks) &&
          if q.Err? then handled == Err(q.exc) && socket.State() == w
          else handled.Ok? && socket.State() == Deliver(w, SearchTravelReply(q.value, FoundTravel(q.value)))
      // `who_is_sitting`
      ensures p == WhoSitting ==>
          var (q, w) := ReadSeatQuery(old(socket.State()));
          registry.connections == old(registry.connections) && registry.salesDesks.desks == old(registry.salesDesks.desks) &&
          if q.Err? then handled == Err(q.exc) && socket.State() == w
          else
            var reply := WhoIsSitingReply(q.value, SittingAnswer(q.value));
            handled == reply.result && socket.State() == Deliver(w, reply)
      // `search_travels_per_date`
      ensures p == SearchTravelsPerDate ==>
          var (q, w) := ReadDateQuery(old(socket.State()));
          registry.connections == old(registry.connections) && registry.salesDesks.desks == old(registry.salesDesks.desks) &&
          if q.Err? then handled == Err(q.exc) && socket.State() == w
          else handled.Ok? && socket.State() == Deliver(w, PerDateReply(q.value, TravelsOnDate(q.value)))
      // `assign`: the registry's answer, its pushes and the reply
      ensures p == Primitive.Assign ==>
          var (a, w) := ReadAssignation(old(socket.State()));
          registry.connections == old(registry.connections) && registry.salesDesks.desks == old(registry.salesDesks.desks) &&
          if a.Err? then handled == Err(a.exc) && socket.State() == w
          else
            var reply := AssignationReply(a.value, AssignationAnswer(a.value, old(AssignationOutcome(a.value)),
                                          CompaniesAt(registry.connections, order), old(LinksAt(registry.connections, order))));
            handled == reply.result && socket.State() == Deliver(w, reply)
      // `deallocate`
      ensures p == Primitive.Deallocate ==>
          var (q, w) := ReadSeatQuery(old(socket.State()));
          registry.connections == old(registry.connections) && registry.salesDesks.desks == old(registry.salesDesks.desks) &&
          if q.Err? then handled == Err(q.exc) && socket.State() == w
          else
            var reply := DeallocationReply(q.value, DeallocationAnswer(q.value, old(DeallocationOutcome(q.value)),
                                           CompaniesAt(registry.connections, order), old(LinksAt(registry.connections, order))));
            handled == reply.result && socket.State() == Deliver(w, reply)
      // `disconnect_push`: the id is removed when registered
      ensures p == DisconnectPush ==>
          var (line, w) := ReadLineSpec(old(socket.State()));
          registry.salesDesks.desks == old(registry.salesDesks.desks) &&
          if line.Err? then handled == Err(line.exc) && socket.State() == w && registry.connections == old(registry.connections)
          else
            var removed := if line.value.None? then Err(NullPointer) else Ok(line.value.value in old(registry.connections));
            var reply := DisconnectReply(removed);
            handled == reply.result && socket.State() == Deliver(w, reply) &&
            registry.connections == (if removed == Ok(true) then old(registry.connections) - {line.value.value}
                                     else old(registry.connections))
      // `connect_push`: the id exchange, then the connection filed on `ok`
      ensures p == ConnectPush ==>
          var (companyID, w) := ReadLineSpec(old(socket.State()));
          if companyID.Err? then
            handled == Err(companyID.exc) && socket.State() == w &&
            registry.connections == old(registry.connections) && registry.salesDesks.desks == old(registry.salesDesks.desks)
          else
            var id := Drawn(draws);
            var exchange := ExchangeSpec(w, NewConnectionId, WaitTimeClient, Some(id), []);
            if exchange.0 == Ok(OkReply) then
              companyID.value.Some? && socket.State() == exchange.2 &&
              var company := companyID.value.value;
              var loaded := if old(registry.salesDesks.ExistsDesk(company)) then Ok(()) else LoadOutcome(files);
              handled == loaded &&
              if loaded.Err? then
                registry.connections == old(registry.connections) && registry.salesDesks.desks == old(registry.salesDesks.desks)
              else
                id in registry.connections &&
                registry.connections == old(registry.connections)[id := registry.connections[id]] &&
                registry.connections[id].companyID == Some(company) &&
                registry.connections[id].socket == socket &&
                registry.salesDesks.ExistsDesk(company)
            else
              handled == (if exchange.0.Err? then Err(exchange.0.exc) else Ok(())) &&
              socket.State() == (if exchange.0.Err? then exchange.2 else exchange.2.(open := false)) &&
              registry.connections == old(registry.connections) && registry.salesDesks.desks == old(registry.salesDesks.desks)
    {
      handled := Ok(());
      match p {
        case ConnectPush =>
          handled := PushConnectionOffice(draws, files);
        case DisconnectPush =>
          handled := DisconnectPushOffice();
        case Assign =>
          handled := AssignationRequest(order);
        case Deallocate =>
          handled := DeallocationRequest(order);
        case SearchTravel =>
          handled := SearchTravelRequest();
        case WhoSitting =>
          handled := WhoIsSitingRequest();
        case SearchTravelsPerDate =>
          handled := SearchTravelsPerDateRequest();
        case _ =>
      }
    }
  }
}

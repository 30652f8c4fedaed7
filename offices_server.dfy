/** The alphabet of the ids the server gives push connections. */
module ConnectionIds {
  /** The length of a connection id. */
  const IdLength: nat := 6
  const Digits: string := "0123456789"
  const Letters: string := "abcdefghijklmnopqrstuvwxyz"
  /** The characters a connection id is drawn from: the digits, the letters, and the digits again. */
  const PossibleChars: string := Digits + Letters + Digits

  /** A character of the alphabet of connection ids. */
  predicate IdChar(c: char) {
    '0' <= c <= '9' || 'a' <= c <= 'z'
  }

  lemma PossibleCharsAreIdChars()
    ensures |PossibleChars| == 46
    ensures forall i :: 0 <= i < |PossibleChars| ==> IdChar(PossibleChars[i])
  {
    assert forall i :: 0 <= i < |Digits| ==> '0' <= Digits[i] <= '9';
    assert forall i :: 0 <= i < |Letters| ==> 'a' <= Letters[i] <= 'z';
  }

  /** Six indices into the alphabet, as six calls of `Random.nextInt(46)` give them. */
  predicate ValidDraws(draws: seq<int>) {
    |draws| == IdLength && forall k :: 0 <= k < |draws| ==> 0 <= draws[k] < |PossibleChars|
  }

  /** The id the draws spell: six characters of the alphabet, the `k`-th at index `draws[k]`. */
  function Drawn(draws: seq<int>): (id: string)
    requires ValidDraws(draws)
    ensures |id| == IdLength && forall k :: 0 <= k < IdLength ==> IdChar(id[k])
  {
    PossibleCharsAreIdChars();
    seq(IdLength, k requires 0 <= k < IdLength => PossibleChars[draws[k]])
  }
}

/**
 * The server's registry of push connections: connection id to connection,
 * the company-filtered fan-out that tells every desk of a company about a
 * change, and the periodic liveness sweep.  The registry also routes the
 * store operations to the tenant map.
 *
 * Java iterates over the values of a ConcurrentHashMap, in an order the
 * hashes decide; here that order is a parameter, a sequence listing every
 * registered id once.
 */
module OfficesServer {
  import opened Outcomes
  import opened Text
  import opened CommunicationPrimitive
  import opened Channels
  import opened PushConnection
  import opened ServerPassenger
  import opened ServerTravel
  import opened ServerSalesDesk
  import opened SalesDesks
  import opened ConnectionIds

  /** The read timeout of a fan-out push, in milliseconds. */
  const WaitTimeClient: int := 2000
  /** The read timeout of a liveness probe, in milliseconds. */
  const WaitTimeTestConnections: int := 100 * 1000

  // ---------------------------------------------------------------------------
  // One registered connection, as a value

  /** The socket of a registered connection and the count of its latch. */
  datatype Link = Link(wire: Wire, waiting: nat)

  /** `endConnection()`: the socket is closed and the latch counted down. */
  function EndLink(l: Link): (r: Link)
    ensures r.wire == l.wire.(open := false)
    ensures r.waiting == if l.waiting > 0 then l.waiting - 1 else 0
  {
    Link(l.wire.(open := false), if l.waiting > 0 then l.waiting - 1 else 0)
  }

  /** A request on one connection: `sendRequest` on its socket, the results dropped. */
  function ExchangeLink(l: Link, request: Primitive, waitTime: int, parameters: Option<string>): (Result<Primitive>, Link) {
    var (r, _, w) := ExchangeSpec(l.wire, request, waitTime, parameters, []);
    (r, l.(wire := w))
  }

  /**
   * One position of `notifyOfficesPush`: comparing a connection with no
   * company raises a NullPointerException; a connection of another company
   * is skipped; one of the company gets the request with the parameters line.
   */
  function Push(company: Option<string>, l: Link, companyID: string, request: Primitive, parameters: string): (Result<()>, Link) {
    if company.None? then (Err(NullPointer), l)
    else if company.value != companyID then (Ok(()), l)
    else
      var (r, l') := ExchangeLink(l, request, WaitTimeClient, Some(parameters));
      (if r.Err? then Err(r.exc) else Ok(()), l')
  }

  /**
   * `notifyOfficesPush` from position `i` of the iteration order on: the
   * first exception stops the fan-out.
   */
  function NotifyFrom(companies: seq<Option<string>>, links: seq<Link>, i: nat, companyID: string,
                      request: Primitive, parameters: string): (r: (Result<()>, seq<Link>))
    requires |companies| == |links| && i <= |links|
    ensures |r.1| == |links|
    decreases |links| - i
  {
    if i == |links| then (Ok(()), links)
    else
      var (pushed, l) := Push(companies[i], links[i], companyID, request, parameters);
      if pushed.Err? then (pushed, links[i := l])
      else NotifyFrom(companies, links[i := l], i + 1, companyID, request, parameters)
  }

  /**
   * One position of the fan-out: an exception ends it; otherwise what is
   * left of it from the next position is the fan-out from here.
   */
  lemma NotifyFromStep(companies: seq<Option<string>>, links: seq<Link>, i: nat, companyID: string,
                       request: Primitive, parameters: string, outcome: (Result<()>, seq<Link>))
    requires |companies| == |links| && i < |links|
    requires var (r, after) := NotifyFrom(companies, links, i, companyID, request, parameters);
      r == outcome.0 && after == outcome.1
    ensures var (pushed, l) := Push(companies[i], links[i], companyID, request, parameters);
      if pushed.Err? then outcome.0 == pushed && outcome.1 == links[i := l]
      else
        var (r, after) := NotifyFrom(companies, links[i := l], i + 1, companyID, request, parameters);
        r == outcome.0 && after == outcome.1
  {
  }

  /** The fan-out leaves every connection of another company, and every one before `i`, as it was. */
  lemma {:induction false} NotifyOnlyCompany(companies: seq<Option<string>>, links: seq<Link>, i: nat, companyID: string,
                                             request: Primitive, parameters: string)
    requires |companies| == |links| && i <= |links|
    ensures var (_, after) := NotifyFrom(companies, links, i, companyID, request, parameters);
      forall j :: 0 <= j < |links| && (j < i || companies[j] != Some(companyID)) ==> after[j] == links[j]
    decreases |links| - i
  {
    if i < |links| {
      var (pushed, l) := Push(companies[i], links[i], companyID, request, parameters);
      if pushed.Ok? {
        NotifyOnlyCompany(companies, links[i := l], i + 1, companyID, request, parameters);
      }
    }
  }

  /**
   * A fan-out that completes wrote the request frame, with the parameters
   * line, to every connection of the company from `i` on, each of which
   * was open.
   */
  lemma {:induction false} NotifyReachesCompany(companies: seq<Option<string>>, links: seq<Link>, i: nat, companyID: string,
                                                request: Primitive, parameters: string)
    requires |companies| == |links| && i <= |links|
    ensures var (r, after) := NotifyFrom(companies, links, i, companyID, request, parameters);
      r.Ok? ==> forall j :: i <= j < |links| && companies[j] == Some(companyID) ==>
        links[j].wire.open && after[j].wire.output == links[j].wire.output + RequestFrame(request, Some(parameters))
    decreases |links| - i
  {
    if i < |links| {
      var (pushed, l) := Push(companies[i], links[i], companyID, request, parameters);
      ExchangeWrites(links[i].wire, request, WaitTimeClient, Some(parameters), []);
      if pushed.Ok? {
        NotifyReachesCompany(companies, links[i := l], i + 1, companyID, request, parameters);
        NotifyOnlyCompany(companies, links[i := l], i + 1, companyID, request, parameters);
      }
    }
  }

  /**
   * A fan-out that fails stopped at a connection of the company, or at one
   * with no company: every connection after it is left as it was.
   */
  lemma {:induction false} NotifyStops(companies: seq<Option<string>>, links: seq<Link>, i: nat, companyID: string,
                                       request: Primitive, parameters: string)
    requires |companies| == |links| && i <= |links|
    ensures var (r, after) := NotifyFrom(companies, links, i, companyID, request, parameters);
      r.Err? ==> exists k :: i <= k < |links| && (companies[k] == Some(companyID) || companies[k].None?) &&
                            forall j :: k < j < |links| ==> after[j] == links[j]
    decreases |links| - i
  {
    if i < |links| {
      var (pushed, l) := Push(companies[i], links[i], companyID, request, parameters);
      if pushed.Ok? {
        NotifyStops(companies, links[i := l], i + 1, companyID, request, parameters);
        var (r', after) := NotifyFrom(companies, links[i := l], i + 1, companyID, request, parameters);
        if r'.Err? {
          var k :| i + 1 <= k < |links| && (companies[k] == Some(companyID) || companies[k].None?) &&
            forall j :: k < j < |links| ==> after[j] == links[i := l][j];
          assert forall j :: k < j < |links| ==> after[j] == links[j];
        }
      } else {
        assert forall j :: i < j < |links| ==> links[i := l][j] == links[j];
      }
    }
  }

  // ---------------------------------------------------------------------------
  // The liveness sweep

  /**
   * One probe of the sweep: `test` with no parameters.  An IOException
   * removes the connection and ends it (false); any other exception escapes
   * the timer task; otherwise the connection stays (true).
   */
  function Probe(l: Link): (Result<bool>, Link) {
    var (r, l1) := ExchangeLink(l, Test, WaitTimeTestConnections, None);
    if r == Err(IOException) then (Ok(false), EndLink(l1))
    else if r.Err? then (Err(r.exc), l1)
    else (Ok(true), l1)
  }

  /** The sweep from position `i` of the iteration order on: the outcome, the links, and the ids removed. */
  function SweepFrom(ids: seq<string>, links: seq<Link>, i: nat): (r: (Result<()>, seq<Link>, set<string>))
    requires |ids| == |links| && i <= |links|
    ensures |r.1| == |links|
    decreases |links| - i
  {
    if i == |links| then (Ok(()), links, {})
    else
      var (r, l) := Probe(links[i]);
      if r.Err? then (Err(r.exc), links[i := l], {})
      else
        var (r', after, dropped) := SweepFrom(ids, links[i := l], i + 1);
        (r', after, if r.value then dropped else {ids[i]} + dropped)
  }

  /**
   * A probe that does not throw moves the sweep on to the next position:
   * what is left of the sweep from there, with the id removed when the
   * probe dropped it, is the sweep from here.
   */
  /** The loop invariant of the sweep: from position `i` on, `SweepFrom` completes `outcome`, `dropped` holding the ids removed before `i`. */
  ghost predicate SweepInv(ids: seq<string>, links: seq<Link>, i: nat, dropped: set<string>,
                           outcome: (Result<()>, seq<Link>, set<string>))
    requires |ids| == |links| && i <= |links|
  {
    var (r, after, rest) := SweepFrom(ids, links, i);
    r == outcome.0 && after == outcome.1 && dropped + rest == outcome.2
  }

  lemma SweepFromStep(ids: seq<string>, links: seq<Link>, i: nat, dropped: set<string>,
                      outcome: (Result<()>, seq<Link>, set<string>))
    requires |ids| == |links| && i < |links| && Probe(links[i]).0.Ok?
    requires SweepInv(ids, links, i, dropped, outcome)
    ensures SweepInv(ids, links[i := Probe(links[i]).1], i + 1,
                     if Probe(links[i]).0.value then dropped else dropped + {ids[i]}, outcome)
  {
  }

  /**
   * A probe keeps a connection exactly when its socket stays open, and a
   * removed connection has its latch counted down.
   */
  lemma ProbeCases(l: Link)
    ensures var (r, after) := Probe(l);
      (r == Ok(true) ==> after.wire.open && after.waiting == l.waiting) &&
      (r == Ok(false) ==> !after.wire.open && after.waiting == if l.waiting > 0 then l.waiting - 1 else 0) &&
      (r.Err? ==> after.waiting == l.waiting) &&
      (r.Ok? ==> after.wire.output == l.wire.output + RequestFrame(Test, None) || !l.wire.open)
  {
    ExchangeWrites(l.wire, Test, WaitTimeTestConnections, None, []);
  }

  /** A desk that closed its end without answering is not detected: the probe reads NOK and keeps it. */
  lemma ProbeKeepsClosedPeer(l: Link)
    requires l.wire.open && l.wire.input == [] && l.wire.inputEnd == PeerClosed
    ensures Probe(l).0 == Ok(true)
  {
    ExchangePeerClosed(l.wire, Test, WaitTimeTestConnections, None, []);
  }

  /** A desk whose read fails is removed and ended. */
  lemma ProbeDropsFailedRead(l: Link)
    requires l.wire.open && l.wire.input == [] && l.wire.inputEnd == ReadFails
    ensures Probe(l).0 == Ok(false) && !Probe(l).1.wire.open
  {
  }

  /**
   * A sweep removes only ids from position `i` on; when it completes, an id
   * is removed exactly when its connection ended up closed, and the other
   * connections keep their latches.
   */
  lemma {:induction false} SweepDropsClosed(ids: seq<string>, links: seq<Link>, i: nat)
    requires |ids| == |links| && i <= |links|
    requires forall a, b :: 0 <= a < b < |ids| ==> ids[a] != ids[b]
    ensures var (r, after, dropped) := SweepFrom(ids, links, i);
      |after| == |links| &&
      (forall j :: 0 <= j < i ==> after[j] == links[j]) &&
      (forall id :: id in dropped ==> exists j :: i <= j < |ids| && ids[j] == id) &&
      (r.Ok? ==> forall j :: i <= j < |ids| ==> (ids[j] in dropped <==> !after[j].wire.open))
    decreases |links| - i
  {
    if i < |links| {
      var (r, l) := Probe(links[i]);
      ProbeCases(links[i]);
      if r.Ok? {
        SweepDropsClosed(ids, links[i := l], i + 1);
        var (r', after, dropped) := SweepFrom(ids, links[i := l], i + 1);
        assert ids[i] !in dropped;
      }
    }
  }

  // ---------------------------------------------------------------------------
  // The registry's connections as seen through the objects

  /** No two registered connections share a socket or a latch. */
  ghost predicate Distinct(m: map<string, SalesDeskPushConnection>) {
    forall a, b :: a in m && b in m && a != b ==> m[a].socket != m[b].socket && m[a].latch != m[b].latch
  }

  /** `order` lists every key of the map exactly once. */
  predicate IsOrder(order: seq<string>, m: map<string, SalesDeskPushConnection>) {
    (forall i, j :: 0 <= i < j < |order| ==> order[i] != order[j]) &&
    (forall id :: id in m ==> id in order) &&
    (forall i :: 0 <= i < |order| ==> order[i] in m)
  }

  /** The sockets and latches of the connections of a map. */
  ghost function Objects(m: map<string, SalesDeskPushConnection>): set<object> {
    (set id | id in m :: m[id].socket as object) + (set id | id in m :: m[id].latch as object)
  }

  /** The companies of the connections, in the iteration order. */
  function CompaniesAt(m: map<string, SalesDeskPushConnection>, order: seq<string>): (r: seq<Option<string>>)
    requires IsOrder(order, m)
    ensures |r| == |order| && forall i :: 0 <= i < |order| ==> r[i] == m[order[i]].companyID
  {
    seq(|order|, i requires 0 <= i < |order| => m[order[i]].companyID)
  }

  /** The state of the connections, in the iteration order. */
  ghost function LinksAt(m: map<string, SalesDeskPushConnection>, order: seq<string>): (r: seq<Link>)
    requires IsOrder(order, m)
    reads Objects(m)
    ensures |r| == |order|
    ensures forall i :: 0 <= i < |order| ==> r[i] == Link(m[order[i]].socket.State(), m[order[i]].latch.count)
  {
    seq(|order|, i requires 0 <= i < |order| reads Objects(m) => Link(m[order[i]].socket.State(), m[order[i]].latch.count))
  }

  /** `sendRequest` on the connection at position `i`, the results dropped; the other connections stay as they were. */
  method ExchangeAt(m: map<string, SalesDeskPushConnection>, order: seq<string>, i: nat,
                    request: Primitive, waitTime: int, parameters: Option<string>) returns (r: Result<Primitive>)
    requires IsOrder(order, m) && Distinct(m) && i < |order|
    modifies m[order[i]].socket
    ensures r == ExchangeLink(old(LinksAt(m, order))[i], request, waitTime, parameters).0
    ensures LinksAt(m, order) ==
      old(LinksAt(m, order))[i := ExchangeLink(old(LinksAt(m, order))[i], request, waitTime, parameters).1]
  {
    ghost var before := LinksAt(m, order);
    var conn := m[order[i]];
    r := conn.SendRequestWithoutResults(request, waitTime, parameters);
    forall j | 0 <= j < |order| && j != i
      ensures LinksAt(m, order)[j] == before[j]
    {
      assert m[order[j]].socket != conn.socket;
    }
    assert LinksAt(m, order)[i] == before[i].(wire := conn.socket.State());
    assert LinksAt(m, order) == before[i := before[i].(wire := conn.socket.State())];
  }

  /** `endConnection()` on the connection at position `i`; the other connections stay as they were. */
  method EndAt(m: map<string, SalesDeskPushConnection>, order: seq<string>, i: nat)
    requires IsOrder(order, m) && Distinct(m) && i < |order|
    modifies m[order[i]].socket, m[order[i]].latch
    ensures LinksAt(m, order) == old(LinksAt(m, order))[i := EndLink(old(LinksAt(m, order))[i])]
  {
    ghost var before := LinksAt(m, order);
    var conn := m[order[i]];
    conn.EndConnection();
    forall j | 0 <= j < |order| && j != i
      ensures LinksAt(m, order)[j] == before[j]
    {
      assert m[order[j]].socket != conn.socket && m[order[j]].latch != conn.latch;
    }
  }

  /** The loop of `notifyOfficesPush` over the connections of a map, in the iteration order. */
  method NotifyAll(m: map<string, SalesDeskPushConnection>, order: seq<string>, companyID: string,
                   request: Primitive, parameters: string) returns (r: Result<()>)
    requires IsOrder(order, m) && Distinct(m)
    modifies Objects(m)
    ensures var (res, after) := NotifyFrom(CompaniesAt(m, order), old(LinksAt(m, order)), 0, companyID, request, parameters);
      r == res && LinksAt(m, order) == after
  {
    ghost var companies := CompaniesAt(m, order);
    ghost var cur := LinksAt(m, order);
    ghost var outcome := NotifyFrom(companies, cur, 0, companyID, request, parameters);
    var i := 0;
    while i < |order|
      invariant 0 <= i <= |order| && |cur| == |order|
      invariant cur == LinksAt(m, order)
      invariant var (res, after) := NotifyFrom(companies, cur, i, companyID, request, parameters);
        res == outcome.0 && after == outcome.1
    {
      NotifyFromStep(companies, cur, i, companyID, request, parameters, outcome);
      var pushed := PushAt(m, order, i, companyID, request, parameters);
      if pushed.Err? {
        return pushed;
      }
      cur := cur[i := Push(companies[i], cur[i], companyID, request, parameters).1];
      i := i + 1;
    }
    r := Ok(());
  }

  /** One position of `notifyOfficesPush`, on the connection at position `i`. */
  method PushAt(m: map<string, SalesDeskPushConnection>, order: seq<string>, i: nat, companyID: string,
                request: Primitive, parameters: string) returns (r: Result<()>)
    requires IsOrder(order, m) && Distinct(m) && i < |order|
    modifies m[order[i]].socket
    ensures r == Push(m[order[i]].companyID, old(LinksAt(m, order))[i], companyID, request, parameters).0
    ensures LinksAt(m, order) ==
      old(LinksAt(m, order))[i := Push(m[order[i]].companyID, old(LinksAt(m, order))[i], companyID, request, parameters).1]
  {
    ghost var before := LinksAt(m, order);
    if m[order[i]].companyID.None? {
      assert before[i := before[i]] == before;
      r := Err(NullPointer);
    } else if m[order[i]].companyID.value == companyID {
      var reply := ExchangeAt(m, order, i, request, WaitTimeClient, Some(parameters));
      r := if reply.Err? then Err(reply.exc) else Ok(());
    } else {
      assert before[i := before[i]] == before;
      r := Ok(());
    }
  }

  /** `test` on the connection at position `i`; on an IOException the connection is ended. */
  method ProbeAt(m: map<string, SalesDeskPushConnection>, order: seq<string>, i: nat) returns (kept: Result<bool>)
    requires IsOrder(order, m) && Distinct(m) && i < |order|
    modifies m[order[i]].socket, m[order[i]].latch
    ensures kept == Probe(old(LinksAt(m, order))[i]).0
    ensures LinksAt(m, order) == old(LinksAt(m, order))[i := Probe(old(LinksAt(m, order))[i]).1]
  {
    ghost var before := LinksAt(m, order);
    var reply := ExchangeAt(m, order, i, Test, WaitTimeTestConnections, None);
    ghost var probed := LinksAt(m, order)[i];
    if reply == Err(IOException) {
      EndAt(m, order, i);
      assert LinksAt(m, order) == before[i := EndLink(probed)];
      kept := Ok(false);
    } else if reply.Err? {
      kept := Err(reply.exc);
    } else {
      kept := Ok(true);
    }
  }

  /**
   * The loop of the sweep over the connections of a map, in the iteration
   * order: the outcome, and the map without the connections it removed.
   */
  method SweepAll(m: map<string, SalesDeskPushConnection>, order: seq<string>)
      returns (r: Result<()>, remaining: map<string, SalesDeskPushConnection>)
    requires IsOrder(order, m) && Distinct(m)
    modifies Objects(m)
    ensures var (res, after, dropped) := SweepFrom(order, old(LinksAt(m, order)), 0);
      r == res && LinksAt(m, order) == after && remaining == m - dropped
  {
    ghost var cur := LinksAt(m, order);
    ghost var outcome := SweepFrom(order, cur, 0);
    ghost var dropped: set<string> := {};
    remaining := m;
    var i := 0;
    while i < |order|
      invariant 0 <= i <= |order| && |cur| == |order|
      invariant cur == LinksAt(m, order)
      invariant remaining == m - dropped
      invariant SweepInv(order, cur, i, dropped, outcome)
    {
      ghost var probe := Probe(cur[i]);
      var kept := ProbeAt(m, order, i);
      assert kept == probe.0;
      if kept.Err? {
        r := Err(kept.exc);
        return;
      }
      SweepFromStep(order, cur, i, dropped, outcome);
      cur := cur[i := probe.1];
      if !kept.value {
        UnfileTwice(m, dropped, order[i]);
        remaining := remaining - {order[i]};
        dropped := dropped + {order[i]};
      }
      i := i + 1;
    }
    r := Ok(());
  }

  /**
   * What `assign` or `deallocate` answers, given what the tenant map
   * answered and the links before the pushes: the tenant map's answer
   * unless it was true, and then the outcome of pushing the company's desks.
   */
  function Answered(outcome: Result<bool>, companies: seq<Option<string>>, links: seq<Link>, companyID: string,
                    request: Primitive, parameters: string): Result<bool>
    requires |companies| == |links|
  {
    if outcome != Ok(true) then outcome
    else Notified(NotifyFrom(companies, links, 0, companyID, request, parameters).0)
  }

  /** True once every push went out, or the exception that stopped them. */
  function Notified(pushed: Result<()>): (r: Result<bool>)
    ensures r.Ok? <==> pushed.Ok?
    ensures r.Ok? ==> r.value
    ensures r.Err? ==> r.exc == pushed.exc
  {
    if pushed.Err? then Err(pushed.exc) else Ok(true)
  }

  /** Every connection is filed under its own id. */
  predicate Filed(m: map<string, SalesDeskPushConnection>) {
    forall id :: id in m ==> m[id].connectionID == id
  }

  /**
   * The registry, the desks and their seat tables, and the sockets and
   * latches of the connections are separate objects.
   */
  ghost predicate Separate(server: OfficesServer, desks: map<string, SalesDesk>, m: map<string, SalesDeskPushConnection>) {
    server !in Objects(m) &&
    forall c :: c in desks ==> server !in Footprint(desks[c]) && Footprint(desks[c]) !! Objects(m)
  }

  /** Filing a desk that is neither the registry nor shares an object with a connection keeps the objects separate. */
  lemma SeparateAddDesk(server: OfficesServer, desks: map<string, SalesDesk>, m: map<string, SalesDeskPushConnection>,
                        companyID: string, desk: SalesDesk)
    requires Separate(server, desks, m) && server !in Footprint(desk) && Footprint(desk) !! Objects(m)
    ensures Separate(server, desks[companyID := desk], m)
  {
  }

  /** Unfiling ids one more at a time. */
  lemma UnfileTwice(m: map<string, SalesDeskPushConnection>, ids: set<string>, id: string)
    ensures (m - ids) - {id} == m - (ids + {id})
  {
  }

  /** Unfiling connections keeps the objects separate. */
  lemma SeparateShrink(server: OfficesServer, desks: map<string, SalesDesk>, m: map<string, SalesDeskPushConnection>, ids: set<string>)
    requires Separate(server, desks, m)
    ensures Separate(server, desks, m - ids)
  {
    assert Objects(m - ids) <= Objects(m);
  }

  /** Filing a connection keeps the objects separate: a socket or a latch is neither a registry nor a desk nor a seat table. */
  lemma SeparateFile(server: OfficesServer, desks: map<string, SalesDesk>, m: map<string, SalesDeskPushConnection>, conn: SalesDeskPushConnection)
    requires Separate(server, desks, m)
    ensures Separate(server, desks, m[conn.connectionID := conn])
  {
    var m' := m[conn.connectionID := conn];
    assert Objects(m') <= Objects(m) + {conn.socket, conn.latch};
  }

  class OfficesServer {
    const salesDesks: SalesDesks
    var connections: map<string, SalesDeskPushConnection>

    /** The registry starts empty over the given tenant map. */
    constructor (salesDesks: SalesDesks)
      ensures this.salesDesks == salesDesks && connections == map[]
    {
      this.salesDesks := salesDesks;
      connections := map[];
    }

    /**
     * Every connection is filed under its own id, no two share a socket or
     * a latch, the tenant map is valid, and the registry, the tenant map and
     * the sockets and latches are separate objects.
     */
    ghost predicate Valid()
      reads this, salesDesks
    {
      salesDesks.Valid() && Distinct(connections) && Filed(connections) &&
      salesDesks !in Objects(connections) && Separate(this, salesDesks.desks, connections)
    }

    /**
     * `createConnectionID()`: six characters of the alphabet, the `k`-th
     * one at the `k`-th index `Random.nextInt(46)` drew.  The ids already
     * in use are not consulted.
     */
    method CreateConnectionID(draws: seq<int>) returns (id: string)
      requires ValidDraws(draws)
      ensures id == Drawn(draws)
      ensures |id| == IdLength && forall k :: 0 <= k < |id| ==> IdChar(id[k])
    {
      id := [];
      for k := 0 to IdLength
        invariant |id| == k && forall j :: 0 <= j < k ==> id[j] == PossibleChars[draws[j]]
      {
        id := id + [PossibleChars[draws[k]]];
      }
    }

    /**
     * `newPushConnection(connection)`: a desk is created for the company
     * only when it has none; the connection is filed under its id,
     * replacing any connection that had the same id.  An exception loading
     * the new desk propagates before the connection is filed.
     */
    method NewPushConnection(conn: SalesDeskPushConnection, files: StoreFiles) returns (r: Result<()>)
      requires Valid() && conn.companyID.Some?
      requires forall id :: id in connections && id != conn.connectionID ==>
        connections[id].socket != conn.socket && connections[id].latch != conn.latch
      modifies this, salesDesks
      ensures Valid()
      ensures r == if old(salesDesks.ExistsDesk(conn.companyID.value)) then Ok(()) else LoadOutcome(files)
      ensures r.Err? ==> connections == old(connections) && salesDesks.desks == old(salesDesks.desks)
      ensures r.Ok? ==> connections == old(connections)[conn.connectionID := conn]
      ensures old(salesDesks.ExistsDesk(conn.companyID.value)) ==> salesDesks.desks == old(salesDesks.desks)
      ensures !old(salesDesks.ExistsDesk(conn.companyID.value)) && r.Ok? ==>
        salesDesks.desks.Keys == old(salesDesks.desks.Keys) + {conn.companyID.value} &&
        forall c :: c in old(salesDesks.desks) ==> salesDesks.desks[c] == old(salesDesks.desks[c])
    {
      r := EnsureDesk(conn.companyID.value, files);
      if r.Err? {
        return;
      }
      FileConnection(conn);
    }

    /**
     * The first half of `newPushConnection`: a desk for the company when it
     * has none, or the exception loading it raised.
     */
    method EnsureDesk(companyID: string, files: StoreFiles) returns (r: Result<()>)
      requires Valid()
      modifies salesDesks
      ensures Valid()
      ensures r == if old(salesDesks.ExistsDesk(companyID)) then Ok(()) else LoadOutcome(files)
      ensures old(salesDesks.ExistsDesk(companyID)) || r.Err? ==> salesDesks.desks == old(salesDesks.desks)
      ensures !old(salesDesks.ExistsDesk(companyID)) && r.Ok? ==>
        salesDesks.desks.Keys == old(salesDesks.desks.Keys) + {companyID} &&
        forall c :: c in old(salesDesks.desks) ==> salesDesks.desks[c] == old(salesDesks.desks[c])
    {
      r := Ok(());
      if !salesDesks.ExistsDesk(companyID) {
        ghost var before := salesDesks.desks;
        r := salesDesks.NewDesk(companyID, files);
        if r.Ok? {
          SeparateAddDesk(this, before, connections, companyID, salesDesks.desks[companyID]);
        }
      }
    }

    /** The second half of `newPushConnection`: the connection filed under its id. */
    method FileConnection(conn: SalesDeskPushConnection)
      requires Valid()
      requires forall id :: id in connections && id != conn.connectionID ==>
        connections[id].socket != conn.socket && connections[id].latch != conn.latch
      modifies this
      ensures Valid() && connections == old(connections)[conn.connectionID := conn]
    {
      SeparateFile(this, salesDesks.desks, connections, conn);
      connections := connections[conn.connectionID := conn];
    }

    /**
     * `removePushConnection(connectionID)`: an unknown id gives false and
     * changes nothing; a known one is ended, unfiled, and gives true.  A
     * null id is refused by the map.
     */
    method RemovePushConnection(connectionID: Option<string>) returns (r: Result<bool>)
      requires Valid()
      modifies this, if connectionID.Some? && connectionID.value in connections
                     then {connections[connectionID.value].socket as object, connections[connectionID.value].latch}
                     else {}
      ensures Valid()
      ensures connectionID.None? ==> r == Err(NullPointer) && connections == old(connections)
      ensures connectionID.Some? && connectionID.value !in old(connections) ==> r == Ok(false) && connections == old(connections)
      ensures connectionID.Some? && connectionID.value in old(connections) ==>
        var conn := old(connections)[connectionID.value];
        r == Ok(true) && connections == old(connections) - {connectionID.value} &&
        conn.socket.State() == old(conn.socket.State()).(open := false) &&
        conn.latch.count == if old(conn.latch.count) > 0 then old(conn.latch.count) - 1 else 0
    {
      if connectionID.None? {
        return Err(NullPointer);
      }
      if connectionID.value !in connections {
        return Ok(false);
      }
      var conn := connections[connectionID.value];
      conn.EndConnection();
      connections := connections - {connectionID.value};
      r := Ok(true);
    }

    /**
     * `notifyOfficesPush(companyID, request, parameters)`: the fan-out of
     * `NotifyFrom` over the connections in the iteration order.
     */
    method Notify(companyID: string, request: Primitive, parameters: string, order: seq<string>) returns (r: Result<()>)
      requires Valid() && IsOrder(order, connections)
      modifies Objects(connections)
      ensures Valid() && salesDesks.desks == old(salesDesks.desks)
      ensures forall c :: c in salesDesks.desks ==> unchanged(salesDesks.desks[c])
      ensures (r, LinksAt(connections, order)) ==
        NotifyFrom(CompaniesAt(connections, order), old(LinksAt(connections, order)), 0, companyID, request, parameters)
    {
      r := NotifyAll(connections, order, companyID, request, parameters);
    }

    /**
     * `assign(companyID, travel, passenger, seat)`: when the tenant map
     * answers true, every desk of the company is pushed `assign` with the
     * travel id; otherwise nobody is told.
     */
    method Assign(companyID: string, travelID: string, p: Passenger, seat: int, order: seq<string>) returns (r: Result<bool>)
      requires Valid() && IsOrder(order, connections)
      modifies salesDesks.DeskOf(companyID), Objects(connections)
      ensures Valid() && salesDesks.desks == old(salesDesks.desks) && connections == old(connections)
      ensures r == Answered(old(salesDesks.AssignOutcome(companyID, travelID, p, seat)), CompaniesAt(connections, order),
                            old(LinksAt(connections, order)), companyID, Primitive.Assign, travelID)
      ensures var outcome := old(salesDesks.AssignOutcome(companyID, travelID, p, seat));
        (outcome != Ok(true) ==> LinksAt(connections, order) == old(LinksAt(connections, order))) &&
        (outcome == Ok(true) ==>
          LinksAt(connections, order) == NotifyFrom(CompaniesAt(connections, order), old(LinksAt(connections, order)), 0,
                                                    companyID, Primitive.Assign, travelID).1)
      ensures forall c :: c in salesDesks.desks && c != companyID ==> unchanged(salesDesks.desks[c])
    {
      ghost var links := LinksAt(connections, order);
      assert salesDesks.DeskOf(companyID) !! Objects(connections);
      var outcome := salesDesks.Assign(companyID, travelID, p, seat);
      assert LinksAt(connections, order) == links;
      if outcome != Ok(true) {
        return outcome;
      }
      var notified := Notify(companyID, Primitive.Assign, travelID, order);
      if notified.Err? {
        return Err(notified.exc);
      }
      r := Ok(true);
    }

    /**
     * `deallocate(companyID, travel, seat)`: when the tenant map answers
     * true, every desk of the company is pushed `deallocate` with the
     * travel id; otherwise nobody is told.
     */
    method Deallocate(companyID: string, travelID: string, seat: int, order: seq<string>) returns (r: Result<bool>)
      requires Valid() && IsOrder(order, connections)
      modifies salesDesks.DeskOf(companyID), Objects(connections)
      ensures Valid() && salesDesks.desks == old(salesDesks.desks) && connections == old(connections)
      ensures r == Answered(old(salesDesks.DeallocateOutcome(companyID, travelID, seat)), CompaniesAt(connections, order),
                            old(LinksAt(connections, order)), companyID, Primitive.Deallocate, travelID)
      ensures var freed := old(salesDesks.DeallocateOutcome(companyID, travelID, seat));
        (freed != Ok(true) ==> LinksAt(connections, order) == old(LinksAt(connections, order))) &&
        (freed == Ok(true) ==>
          LinksAt(connections, order) == NotifyFrom(CompaniesAt(connections, order), old(LinksAt(connections, order)), 0,
                                                    companyID, Primitive.Deallocate, travelID).1)
      ensures forall c :: c in salesDesks.desks && c != companyID ==> unchanged(salesDesks.desks[c])
    {
      ghost var links := LinksAt(connections, order);
      assert salesDesks.DeskOf(companyID) !! Objects(connections);
      var freed := salesDesks.Deallocate(companyID, travelID, seat);
      assert LinksAt(connections, order) == links;
      if freed != Ok(true) {
        return freed;
      }
      var notified := Notify(companyID, Primitive.Deallocate, travelID, order);
      if notified.Err? {
        return Err(notified.exc);
      }
      r := Ok(true);
    }

    /**
     * One run of the timer task of `sendPeriodicTests`: every connection,
     * in the iteration order, is probed with `test`; one whose probe throws
     * an IOException is unfiled and ended.  Another exception ends the run,
     * keeping the removals made so far.
     */
    method Sweep(order: seq<string>) returns (r: Result<()>)
      requires Valid() && IsOrder(order, connections)
      modifies this, Objects(connections)
      ensures Valid()
      ensures var (res, after, dropped) := SweepFrom(order, old(LinksAt(connections, order)), 0);
        r == res && LinksAt(old(connections), order) == after && connections == old(connections) - dropped
    {
      ghost var links := LinksAt(connections, order);
      var remaining;
      r, remaining := SweepAll(connections, order);
      SeparateShrink(this, salesDesks.desks, connections, SweepFrom(order, links, 0).2);
      connections := remaining;
    }

    /** `searchPassenger(companyID, dni)`: the tenant map's answer; nothing changes. */
    function SearchPassenger(companyID: string, dni: string): (r: Option<Passenger>)
      reads this, salesDesks, salesDesks.DeskOf(companyID)
      ensures r.Some? ==> r.value.dni == dni
      ensures r.None? <==> (!salesDesks.ExistsDesk(companyID) ||
                            forall p :: p in salesDesks.desks[companyID].passengers ==> p.dni != dni)
    {
      salesDesks.SearchPassenger(companyID, dni)
    }

    /** `searchTravel(companyID, travelID)`: the tenant map's answer; nothing changes. */
    function SearchTravel(companyID: string, travelID: string): (r: Option<Travel>)
      reads this, salesDesks
      ensures r.Some? ==> r.value.record.id == travelID
      ensures r.None? <==> (!salesDesks.ExistsDesk(companyID) ||
                            forall t :: t in salesDesks.desks[companyID].travels ==> t.record.id != travelID)
    {
      salesDesks.SearchTravel(companyID, travelID)
    }

    /** `whoIsSitting(companyID, travel, seat)`: the tenant map's answer; nothing changes. */
    function WhoIsSitting(companyID: string, travelID: string, seat: int): (r: Result<Option<Passenger>>)
      reads this, salesDesks, salesDesks.DeskOf(companyID)
      ensures !salesDesks.ExistsDesk(companyID) ==> r == Ok(None)
      ensures r.Ok? && r.value.Some? ==> r.value.value in salesDesks.desks[companyID].passengers
    {
      salesDesks.WhoIsSitting(companyID, travelID, seat)
    }

    /** `searchTravelsPerDate(companyID, date)`: the tenant map's answer; nothing changes. */
    function SearchTravelsPerDate(companyID: string, day: int, month: int, year: int): (r: Option<seq<Travel>>)
      reads this, salesDesks
      ensures r.None? <==> !salesDesks.ExistsDesk(companyID)
      ensures r.Some? ==> forall t :: t in r.value ==> OnDay(t.record.date, day, month, year)
    {
      salesDesks.SearchTravelsPerDate(companyID, day, month, year)
    }
  }
}

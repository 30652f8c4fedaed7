/**
 * The server's tenant map: one sales desk per company id.  Every operation
 * names a company and works on that company's desk only; a company without
 * a desk gets false or null.
 *
 * In Java the passenger and travel sets of `SalesDesk` are static, so all
 * desks share one store and each `newDesk` reloads it.  `SalesDesks` below
 * gives each company a store of its own; `SharedDesks` is the shared store
 * as the code has it.
 */
module SalesDesks {
  import opened Outcomes
  import opened ServerPassenger
  import opened ServerTravel
  import opened ServerSalesDesk

  /**
   * What a known company's `assign` reports for a travel the store has: a
   * negative seat is out of the table's bounds; otherwise the answer is true
   * whatever became of the seat.
   */
  function AssignAnswer(slots: seq<Option<string>>, seatsNumber: int, seat: int, dni: string): (r: Result<bool>) {
    var outcome := AssignSeatIn(slots, seatsNumber, seat, dni).0;
    if outcome.Err? then Err(outcome.exc) else Ok(true)
  }

  /**
   * `assign` answers true for every seat from 0 on, whether the seat was
   * taken, was free, or lies above the seat count, and only in the second
   * case does the table change.
   */
  lemma AssignAnswersTrue(slots: seq<Option<string>>, seatsNumber: int, seat: int, dni: string)
    requires TableOf(slots, seatsNumber)
    ensures AssignAnswer(slots, seatsNumber, seat, dni) == (if seat < 0 then Err(IndexOutOfBounds) else Ok(true))
    ensures AssignSeatIn(slots, seatsNumber, seat, dni).1 != slots <==> 0 <= seat <= seatsNumber && slots[seat].None?
  {
    AssignSeatCases(slots, seatsNumber, seat, dni);
    if 0 <= seat <= seatsNumber && slots[seat].None? {
      assert AssignSeatIn(slots, seatsNumber, seat, dni).1[seat] != slots[seat];
    }
  }

  /**
   * What a known company's `deallocate` reports, given what `whoIsSited`
   * answered: a free seat yields null, which `deletePassenger` dereferences.
   */
  function DeallocateAnswer(who: Result<Option<Passenger>>): (r: Result<bool>) {
    match who
    case Err(e) => Err(e)
    case Ok(None) => Err(NullPointer)
    case Ok(Some(_)) => Ok(true)
  }

  /** The store's `whoIsSited` on a table and a passenger sequence: the passenger with the seat's DNI. */
  function SeatedPassenger(slots: seq<Option<string>>, seatsNumber: int, seat: int, ps: seq<Passenger>): Result<Option<Passenger>> {
    var dni := WhoIsSitedIn(slots, seatsNumber, seat);
    if dni.Err? then Err(dni.exc)
    else if dni.value.None? then Ok(None)
    else Ok(FindPassenger(ps, dni.value.value))
  }

  /**
   * On an occupied seat `whoIsSited` finds the passenger only when the
   * store still has one with the seat's DNI; a free seat, or a DNI the
   * store has lost, ends in a NullPointerException, and a seat outside the
   * count in an ArrayIndexOutOfBoundsException.
   */
  lemma DeallocateAnswerCases(slots: seq<Option<string>>, seatsNumber: int, seat: int, ps: seq<Passenger>)
    requires TableOf(slots, seatsNumber)
    ensures var who := SeatedPassenger(slots, seatsNumber, seat, ps);
      (DeallocateAnswer(who) == Ok(true) <==>
         0 <= seat <= seatsNumber && slots[seat].Some? && FindPassenger(ps, slots[seat].value).Some?) &&
      (DeallocateAnswer(who) == Err(IndexOutOfBounds) <==> seat < 0 || seat > seatsNumber) &&
      (DeallocateAnswer(who) == Err(NullPointer) <==>
         0 <= seat <= seatsNumber && (slots[seat].None? || FindPassenger(ps, slots[seat].value).None?))
  {
    WhoIsSitedCases(slots, seatsNumber, seat);
  }

  /** A desk and its seat tables. */
  ghost function Footprint(desk: SalesDesk): set<object> {
    {desk as object} + desk.Tables()
  }

  /** The validity of a company map owned by `owner`; see `SalesDesks.Valid`. */
  ghost predicate DesksValid(owner: object, desks: map<string, SalesDesk>) {
    (forall c :: c in desks ==> desks[c].Valid() && owner !in Footprint(desks[c])) &&
    forall c, d :: c in desks && d in desks && c != d ==>
      desks[c] != desks[d] && desks[c].Tables() !! desks[d].Tables()
  }

  /** Filing a well-formed desk that shares nothing with the other companies' keeps the map valid. */
  lemma DesksValidAdd(owner: object, desks: map<string, SalesDesk>, companyID: string, desk: SalesDesk)
    requires DesksValid(owner, desks) && desk.Valid() && owner !in Footprint(desk)
    requires forall c :: c in desks && c != companyID ==> Footprint(desks[c]) !! Footprint(desk)
    ensures DesksValid(owner, desks[companyID := desk])
  {
    var m := desks[companyID := desk];
    forall c, d | c in m && d in m && c != d
      ensures m[c] != m[d] && m[c].Tables() !! m[d].Tables()
    {
      if c != companyID && d != companyID {
      } else if c == companyID {
        assert m[d] in Footprint(m[d]);
      } else {
        assert m[c] in Footprint(m[c]);
      }
    }
  }

  class SalesDesks {
    var desks: map<string, SalesDesk>

    /** The constructor: no desk yet. */
    constructor ()
      ensures desks == map[] && Valid()
    {
      desks := map[];
    }

    /** The desk of `companyID` and its seat tables, if it has one. */
    ghost function DeskOf(companyID: string): set<object>
      reads this
    {
      if companyID in desks then Footprint(desks[companyID]) else {}
    }

    /**
     * Every desk is well formed, none is the map object itself, and no two
     * companies share a desk or a seat table.
     */
    ghost predicate Valid()
      reads this
    {
      DesksValid(this, desks)
    }

    /**
     * `newDesk(companyID)`: a desk loaded from the store files replaces any
     * desk the company had.  When loading raises an exception the exception
     * propagates and nothing is filed.
     */
    method NewDesk(companyID: string, files: StoreFiles) returns (r: Result<()>)
      requires Valid()
      modifies this
      ensures Valid() && r == LoadOutcome(files)
      ensures r.Err? ==> desks == old(desks)
      ensures r.Ok? ==>
        ExistsDesk(companyID) && desks == old(desks)[companyID := desks[companyID]] &&
        fresh(desks[companyID]) && fresh(desks[companyID].Tables()) &&
        Parsed(desks[companyID].travels) == ReadTravelsSpec([], files.travelLines).1 &&
        desks[companyID].passengers == ReadPassengersSpec([], files.passengerLines)
    {
      var desk, loaded := NewSalesDesk(files);
      if loaded.Err? {
        return loaded;
      }
      File(companyID, desk);
      r := loaded;
    }

    /** Files a desk that shares nothing with the other companies' under `companyID`. */
    method File(companyID: string, desk: SalesDesk)
      requires Valid() && desk.Valid() && this !in Footprint(desk)
      requires forall c :: c in desks && c != companyID ==> Footprint(desks[c]) !! Footprint(desk)
      modifies this
      ensures Valid() && desks == old(desks)[companyID := desk]
    {
      DesksValidAdd(this, desks, companyID, desk);
      desks := desks[companyID := desk];
    }

    /** `existsDesk(companyID)`: whether the company has a desk. */
    predicate ExistsDesk(companyID: string)
      reads this
    {
      companyID in desks
    }

    /** What `assign` answers in the current state. */
    ghost function AssignOutcome(companyID: string, travelID: string, p: Passenger, seat: int): Result<bool>
      reads this, DeskOf(companyID)
    {
      if companyID !in desks then Ok(false) else DeskAssignOutcome(desks[companyID], travelID, p, seat)
    }

    /**
     * `assign(companyID, travel, passenger, seat)`: the company's desk adds
     * the passenger when its DNI is new and then tries the seat; the answer
     * is `AssignOutcome`, true even when the seat stays as it was.  Only that
     * desk changes.
     */
    method Assign(companyID: string, travelID: string, p: Passenger, seat: int) returns (r: Result<bool>)
      requires Valid()
      modifies DeskOf(companyID)
      ensures Valid() && desks == old(desks)
      ensures r == old(AssignOutcome(companyID, travelID, p, seat))
      ensures companyID !in desks ==> r == Ok(false)
      ensures companyID in desks ==>
        var d := desks[companyID];
        d.passengers == (if FindPassenger(old(d.passengers), p.dni).Some? then old(d.passengers) else old(d.passengers) + [p]) &&
        (d.SearchTravel(travelID).Some? ==>
          var t := d.SearchTravel(travelID).value;
          t.seats[..] == AssignSeatIn(old(t.seats[..]), t.seatsNumber, seat, p.dni).1)
      ensures forall c :: c in desks && c != companyID ==> unchanged(desks[c])
    {
      if companyID !in desks {
        return Ok(false);
      }
      assert forall c :: c in desks && c != companyID ==> desks[c] != desks[companyID];
      r := AssignOnDesk(desks[companyID], travelID, p, seat);
    }

    /** What `deallocate` answers in the current state. */
    ghost function DeallocateOutcome(companyID: string, travelID: string, seat: int): Result<bool>
      reads this, DeskOf(companyID)
    {
      if companyID !in desks then Ok(false) else DeallocateAnswer(desks[companyID].WhoIsSited(travelID, seat))
    }

    /**
     * `deallocate(companyID, travel, seat)`: the passenger on the seat is
     * deleted from the store and the seat is freed.  A free seat makes
     * `whoIsSited` answer null, which `deletePassenger` dereferences, and
     * nothing changes.  Only that company's desk changes.
     */
    method Deallocate(companyID: string, travelID: string, seat: int) returns (r: Result<bool>)
      requires Valid()
      modifies DeskOf(companyID)
      ensures Valid() && desks == old(desks)
      ensures r == old(DeallocateOutcome(companyID, travelID, seat))
      ensures companyID !in desks ==> r == Ok(false)
      ensures companyID in desks ==>
        var d := desks[companyID];
        var who := old(d.WhoIsSited(travelID, seat));
        (who.Ok? && who.value.Some? ==>
          d.passengers == RemoveFromPassengers(old(d.passengers), who.value.value) &&
          var t := d.SearchTravel(travelID).value;
          t.seats[..] == old(t.seats[..])[seat := None]) &&
        (r.Err? ==> d.passengers == old(d.passengers) && unchanged(d.Tables()))
      ensures forall c :: c in desks && c != companyID ==> unchanged(desks[c])
    {
      if companyID !in desks {
        return Ok(false);
      }
      assert forall c :: c in desks && c != companyID ==> desks[c] != desks[companyID];
      r := DeallocateOnDesk(desks[companyID], travelID, seat);
    }

    /** `searchPassenger(companyID, dni)`: the passenger with the DNI in the company's desk, or null. */
    function SearchPassenger(companyID: string, dni: string): (r: Option<Passenger>)
      reads this, DeskOf(companyID)
      ensures r.Some? ==> companyID in desks && r.value in desks[companyID].passengers && r.value.dni == dni
      ensures r.None? <==> companyID !in desks || forall p :: p in desks[companyID].passengers ==> p.dni != dni
    {
      if companyID !in desks then None else desks[companyID].SearchPassenger(dni)
    }

    /** `searchTravel(companyID, travelID)`: the travel with the id in the company's desk, or null. */
    function SearchTravel(companyID: string, travelID: string): (r: Option<Travel>)
      reads this
      ensures r.Some? ==> companyID in desks && r.value in desks[companyID].travels && r.value.record.id == travelID
      ensures r.None? <==> companyID !in desks || forall t :: t in desks[companyID].travels ==> t.record.id != travelID
    {
      if companyID !in desks then None else desks[companyID].SearchTravel(travelID)
    }

    /** `whoIsSitting(companyID, travel, seat)`: null for an unknown company, else the desk's `whoIsSited`. */
    function WhoIsSitting(companyID: string, travelID: string, seat: int): (r: Result<Option<Passenger>>)
      reads this, DeskOf(companyID)
      ensures companyID !in desks ==> r == Ok(None)
      ensures r.Ok? && r.value.Some? ==>
        companyID in desks && r.value.value in desks[companyID].passengers &&
        desks[companyID].SearchTravel(travelID).Some? &&
        var t := desks[companyID].SearchTravel(travelID).value;
        0 <= seat < t.seats.Length && t.seats[seat] == Some(r.value.value.dni)
    {
      if companyID !in desks then Ok(None) else desks[companyID].WhoIsSited(travelID, seat)
    }

    /** `searchTravelsPerDate(companyID, date)`: null for an unknown company, else the desk's travels on that day. */
    function SearchTravelsPerDate(companyID: string, day: int, month: int, year: int): (r: Option<seq<Travel>>)
      reads this
      ensures r.None? <==> companyID !in desks
      ensures r.Some? ==> forall t :: t in r.value ==> t in desks[companyID].travels && OnDay(t.record.date, day, month, year)
      ensures r.Some? ==> forall t :: t in desks[companyID].travels && OnDay(t.record.date, day, month, year) ==> t in r.value
    {
      if companyID !in desks then None else Some(desks[companyID].SearchTravelsPerDate(day, month, year))
    }
  }

  /** What `assign` answers once the company's desk is found. */
  ghost function DeskAssignOutcome(desk: SalesDesk, travelID: string, p: Passenger, seat: int): Result<bool>
    reads desk.Tables()
  {
    match desk.SearchTravel(travelID)
    case None => Err(NullPointer)
    case Some(t) => AssignAnswer(t.seats[..], t.seatsNumber, seat, p.dni)
  }

  /** The body of `assign` once the company's desk is found. */
  method AssignOnDesk(desk: SalesDesk, travelID: string, p: Passenger, seat: int) returns (r: Result<bool>)
    modifies desk, desk.Tables()
    ensures r == old(DeskAssignOutcome(desk, travelID, p, seat))
    ensures desk.passengers == (if FindPassenger(old(desk.passengers), p.dni).Some? then old(desk.passengers) else old(desk.passengers) + [p])
    ensures desk.SearchTravel(travelID).Some? ==>
      var t := desk.SearchTravel(travelID).value;
      t.seats[..] == AssignSeatIn(old(t.seats[..]), t.seatsNumber, seat, p.dni).1
  {
    var _ := desk.AddPassenger(p, false);
    var seated := desk.AssignSeat(travelID, p, seat);
    if seated.Err? {
      return Err(seated.exc);
    }
    r := Ok(true);
  }

  /** The body of `deallocate` once the company's desk is found. */
  method DeallocateOnDesk(desk: SalesDesk, travelID: string, seat: int) returns (r: Result<bool>)
    requires desk.Valid()
    modifies desk, desk.Tables()
    ensures r == DeallocateAnswer(old(desk.WhoIsSited(travelID, seat)))
    ensures var who := old(desk.WhoIsSited(travelID, seat));
      who.Ok? && who.value.Some? ==>
        desk.passengers == RemoveFromPassengers(old(desk.passengers), who.value.value) &&
        var t := desk.SearchTravel(travelID).value;
        t.seats[..] == old(t.seats[..])[seat := None]
    ensures r.Err? ==> desk.passengers == old(desk.passengers) && unchanged(desk.Tables())
  {
    var who := desk.WhoIsSited(travelID, seat);
    if who.Err? {
      return Err(who.exc);
    }
    var deleted := desk.DeletePassenger(who.value, false);
    if deleted.Err? {
      return Err(deleted.exc);
    }
    var t := desk.SearchTravel(travelID).value;
    WhoIsSitedCases(t.seats[..], t.seatsNumber, seat);
    var freed := desk.DeallocateSeat(travelID, seat);
    r := Ok(true);
  }

  // ---------------------------------------------------------------------------
  // The shared store, as the code has it

  /**
   * The tenant map as the code is written: the companies that have a desk,
   * and the one static passenger set every desk reads and writes.
   */
  datatype SharedDesks = SharedDesks(companies: set<string>, passengers: seq<Passenger>)

  /** `newDesk` as written: the constructor reloads the static set for every company. */
  function SharedNewDesk(s: SharedDesks, companyID: string, loaded: seq<Passenger>): (r: SharedDesks)
    ensures r.companies == s.companies + {companyID} && r.passengers == loaded
  {
    SharedDesks(s.companies + {companyID}, loaded)
  }

  /** `addPassenger` through the desk of `companyID`, on the static set. */
  function SharedAddPassenger(s: SharedDesks, companyID: string, p: Passenger): SharedDesks {
    if companyID !in s.companies || FindPassenger(s.passengers, p.dni).Some? then s
    else s.(passengers := AddToPassengers(s.passengers, p))
  }

  /** `searchPassenger` through the desk of `companyID`, on the static set. */
  function SharedSearchPassenger(s: SharedDesks, companyID: string, dni: string): Option<Passenger> {
    if companyID !in s.companies then None else FindPassenger(s.passengers, dni)
  }

  /**
   * With the shared store, a passenger added through one company's desk is
   * found through every other company's desk.
   */
  lemma SharedStoreLeaks(s: SharedDesks, a: string, b: string, p: Passenger)
    requires a in s.companies && b in s.companies && a != b
    requires FindPassenger(s.passengers, p.dni).None?
    ensures SharedSearchPassenger(s, b, p.dni).None?
    ensures SharedSearchPassenger(SharedAddPassenger(s, a, p), b, p.dni) == Some(p)
  {
    assert AddToPassengers(s.passengers, p) == s.passengers + [p];
    FindPassengerSnoc(s.passengers, p);
  }

  /**
   * With the shared store, opening a desk for one company replaces what
   * every other company's desk holds by what the files hold.
   */
  lemma SharedNewDeskResets(s: SharedDesks, a: string, b: string, loaded: seq<Passenger>, dni: string)
    requires a in s.companies
    ensures SharedSearchPassenger(SharedNewDesk(s, b, loaded), a, dni) == FindPassenger(loaded, dni)
  {
  }

  /** With a desk per company, a passenger added for one company stays unknown to another. */
  method DesksIsolated(a: string, b: string, files: StoreFiles, p: Passenger) returns (found: Option<Passenger>)
    requires a != b
    requires FindPassenger(ReadPassengersSpec([], files.passengerLines), p.dni).None?
    ensures found.None?
  {
    var desks := new SalesDesks();
    var _ := desks.NewDesk(a, files);
    var _ := desks.NewDesk(b, files);
    var _ := desks.Assign(a, "", p, -1);
    found := desks.SearchPassenger(b, p.dni);
  }
}

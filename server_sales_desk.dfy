/**
 * A company's store on the server: the passengers, the travels with their
 * seat tables, and the readers that fill them from the store's files.
 * Java keeps the two collections in hash sets; here each is the sequence
 * of its elements in iteration order.
 */
module ServerSalesDesk {
  import opened Outcomes
  import opened Text
  import opened ServerPassenger
  import opened ServerTravel

  /** The lines of the travels, passengers and status files a store is loaded from. */
  datatype StoreFiles = StoreFiles(travelLines: seq<string>, passengerLines: seq<string>, statusLines: seq<string>)

  /** The first passenger with the DNI, or null. */
  function FindPassenger(ps: seq<Passenger>, dni: string): (r: Option<Passenger>)
    ensures r.Some? ==> r.value in ps && r.value.dni == dni
    ensures r.None? <==> forall p :: p in ps ==> p.dni != dni
  {
    if |ps| == 0 then None
    else if ps[0].dni == dni then Some(ps[0])
    else FindPassenger(ps[1..], dni)
  }

  /** The first travel with the id, or null. */
  function FindTravel(ts: seq<Travel>, id: string): (r: Option<Travel>)
    ensures r.Some? ==> r.value in ts && r.value.record.id == id
    ensures r.None? <==> forall t :: t in ts ==> t.record.id != id
  {
    if |ts| == 0 then None
    else if ts[0].record.id == id then Some(ts[0])
    else FindTravel(ts[1..], id)
  }

  /**
   * `HashSet.add(p)`: nothing is added when an element equal to `p` (same
   * DNI) sits in `p`'s hash bucket, which the name and the DNI determine.
   */
  function AddToPassengers(ps: seq<Passenger>, p: Passenger): (r: seq<Passenger>)
    ensures (exists q :: q in ps && q.dni == p.dni && q.name == p.name) ==> r == ps
    ensures (forall q :: q in ps ==> !(q.dni == p.dni && q.name == p.name)) ==> r == ps + [p]
  {
    if exists q :: q in ps && q.dni == p.dni && q.name == p.name then ps else ps + [p]
  }

  /** `HashSet.remove(p)`: removes the element equal to `p` in `p`'s hash bucket, if there is one. */
  function RemoveFromPassengers(ps: seq<Passenger>, p: Passenger): (r: seq<Passenger>)
    ensures forall q :: q in r <==> q in ps && !(q.dni == p.dni && q.name == p.name)
    ensures |r| <= |ps|
  {
    if |ps| == 0 then []
    else (if ps[0].dni == p.dni && ps[0].name == p.name then [] else [ps[0]]) + RemoveFromPassengers(ps[1..], p)
  }

  /** The travels whose day, month and year are the given ones, in iteration order. */
  function OnDate(ts: seq<Travel>, day: int, month: int, year: int): (r: seq<Travel>)
    ensures forall t :: t in r ==> t in ts && OnDay(t.record.date, day, month, year)
    ensures forall i :: 0 <= i < |ts| && OnDay(ts[i].record.date, day, month, year) ==> ts[i] in r
    ensures |r| <= |ts|
  {
    if |ts| == 0 then []
    else
      (if OnDay(ts[0].record.date, day, month, year) then [ts[0]] else []) + OnDate(ts[1..], day, month, year)
  }

  predicate OnDay(d: Date, day: int, month: int, year: int) {
    d.day == day && d.month == month && d.year == year
  }

  // ---------------------------------------------------------------------------
  // Seat operations of the store, on one travel's table

  /** `assignSeat`: assigns only when `isSeatFree` holds. */
  function AssignSeatIn(slots: seq<Option<string>>, seatsNumber: int, seat: int, dni: string): (Result<bool>, seq<Option<string>>) {
    match IsSeatFreeIn(slots, seatsNumber, seat)
    case Err(e) => (Err(e), slots)
    case Ok(free) => if free then AssignIn(slots, seat, dni) else (Ok(false), slots)
  }

  /** `deallocateSeat`: deallocates only when `isSeatFree` fails, which includes every seat above the count. */
  function DeallocateSeatIn(slots: seq<Option<string>>, seatsNumber: int, seat: int): (Result<bool>, seq<Option<string>>) {
    match IsSeatFreeIn(slots, seatsNumber, seat)
    case Err(e) => (Err(e), slots)
    case Ok(free) => if free then (Ok(false), slots) else DeallocateIn(slots, seat)
  }

  /**
   * The store assigns a free seat within the count to the DNI; an occupied
   * seat or one above the count gives false and changes nothing; a negative
   * seat is an ArrayIndexOutOfBoundsException.
   */
  lemma AssignSeatCases(slots: seq<Option<string>>, seatsNumber: int, seat: int, dni: string)
    requires TableOf(slots, seatsNumber)
    ensures var (r, after) := AssignSeatIn(slots, seatsNumber, seat, dni);
      (r == Ok(true) <==> 0 <= seat <= seatsNumber && slots[seat].None?) &&
      (r == Ok(true) ==> after == slots[seat := Some(dni)]) &&
      (r.Err? <==> seat < 0) &&
      (r != Ok(true) ==> after == slots)
  {
  }

  /**
   * The store frees an occupied seat; a free seat gives false and changes
   * nothing.  A seat above the count is not free, so the write goes past
   * the end of the table: ArrayIndexOutOfBoundsException.
   */
  lemma DeallocateSeatCases(slots: seq<Option<string>>, seatsNumber: int, seat: int)
    requires TableOf(slots, seatsNumber)
    ensures var (r, after) := DeallocateSeatIn(slots, seatsNumber, seat);
      (r == Ok(true) <==> 0 <= seat <= seatsNumber && slots[seat].Some?) &&
      (r == Ok(true) ==> after == slots[seat := None]) &&
      (r == Ok(false) <==> 0 <= seat <= seatsNumber && slots[seat].None?) &&
      (r == Err(IndexOutOfBounds) <==> seat < 0 || seat > seatsNumber) &&
      (r != Ok(true) ==> after == slots)
  {
  }

  // ---------------------------------------------------------------------------
  // Status lines

  /**
   * One `seat-dni` element of a status line, as `loadPassengersIntoTravel`
   * reads it: a clash on the seat is reported with code `SEAT`.  A seat that
   * is no int escapes as InputMismatchException, a missing DNI as
   * NoSuchElementException, a seat outside the table as
   * ArrayIndexOutOfBoundsException.
   */
  function LoadEntry(slots: seq<Option<string>>, element: string): (Result<()>, seq<Option<string>>) {
    var seatDni := ScanTokens(element, '-');
    match NextInt(seatDni, 0)
    case Err(e) => (Err(e), slots)
    case Ok(seat) =>
      match NextToken(seatDni, 1)
      case Err(e) => (Err(e), slots)
      case Ok(dni) =>
        var (stored, after) := AssignIn(slots, seat, dni);
        if stored.Err? then (Err(stored.exc), slots)
        else if stored.value then (Ok(()), after)
        else (Err(SeatsRead("SEAT", None)), slots)
  }

  /**
   * The element reader as the code is written: the `SEAT` exception is a
   * NumberFormatException, so the surrounding catch turns it into a
   * `TRAVEL` exception carrying the element.
   */
  function LoadEntryAsWritten(slots: seq<Option<string>>, element: string): (Result<()>, seq<Option<string>>) {
    var (r, after) := LoadEntry(slots, element);
    if r.Err? && IsNumberFormat(r.exc) then (Err(SeatsRead("TRAVEL", Some(element))), after) else (r, after)
  }

  /** The elements one after the other; the first failure stops the load, earlier assignments stay. */
  function LoadEntries(slots: seq<Option<string>>, elements: seq<string>): (Result<()>, seq<Option<string>>)
    decreases |elements|
  {
    if |elements| == 0 then (Ok(()), slots)
    else
      var (r, after) := LoadEntry(slots, elements[0]);
      if r.Err? then (r, after) else LoadEntries(after, elements[1..])
  }

  /** One step of the element reader. */
  lemma LoadEntriesUnfold(slots: seq<Option<string>>, elements: seq<string>)
    requires |elements| > 0
    ensures var (r, after) := LoadEntry(slots, elements[0]);
      LoadEntries(slots, elements) == if r.Err? then (r, after) else LoadEntries(after, elements[1..])
  {
  }

  /** `loadPassengersIntoTravel(travel, line)`: the first token (the id) is skipped, the rest are elements. */
  function LoadLine(slots: seq<Option<string>>, line: string): (Result<()>, seq<Option<string>>) {
    var tokens := ScanTokens(line, ',');
    if |tokens| == 0 then (Err(NoSuchElement), slots) else LoadEntries(slots, tokens[1..])
  }

  // ---------------------------------------------------------------------------
  // Writing and reading back a status line

  /** A table with every slot empty, as a freshly built travel has. */
  function EmptyTable(n: nat): seq<Option<string>> {
    seq(n, _ => None)
  }

  /** The table with slot 0 and every slot from `upTo` on emptied. */
  function Prefix(slots: seq<Option<string>>, upTo: nat): seq<Option<string>> {
    seq(|slots|, i requires 0 <= i < |slots| => if 1 <= i < upTo then slots[i] else None)
  }

  /**
   * A table whose status line reads back: seat 0 is never written, seat
   * numbers are ints, and each DNI is non-empty and free of both separators.
   */
  predicate Restorable(slots: seq<Option<string>>) {
    |slots| >= 1 && slots[0].None? && |slots| - 1 <= MaxInt32 &&
    DnisFree(slots, ',') && DnisFree(slots, '-') &&
    forall i :: 0 <= i < |slots| && slots[i].Some? ==> slots[i].value != ""
  }

  /** The element written for an occupied seat is read back into the empty slot. */
  lemma LoadEntryOfEntry(slots: seq<Option<string>>, seat: nat, dni: string)
    requires 1 <= seat < |slots| && seat <= MaxInt32 && slots[seat].None?
    requires dni != "" && '-' !in dni
    ensures LoadEntry(slots, Entry(seat, dni)) == (Ok(()), slots[seat := Some(dni)])
  {
    EntryScans(seat, dni);
  }

  /** An element for a seat that is already taken is reported with code `SEAT`, and the table is left alone. */
  lemma ClashReportedAsSeat(slots: seq<Option<string>>, seat: nat, dni: string)
    requires seat < |slots| && seat <= MaxInt32 && slots[seat].Some?
    requires dni != "" && '-' !in dni
    ensures LoadEntry(slots, Entry(seat, dni)) == (Err(SeatsRead("SEAT", None)), slots)
  {
    EntryScans(seat, dni);
  }

  /**
   * As written, the `SEAT` exception for a taken seat is caught by the
   * NumberFormatException handler around it and replaced by one with code
   * `TRAVEL` carrying the element.
   */
  lemma ClashReportedAsTravelAsWritten(slots: seq<Option<string>>, seat: nat, dni: string)
    requires seat < |slots| && seat <= MaxInt32 && slots[seat].Some?
    requires dni != "" && '-' !in dni
    ensures LoadEntryAsWritten(slots, Entry(seat, dni)) == (Err(SeatsRead("TRAVEL", Some(Entry(seat, dni)))), slots)
  {
    ClashReportedAsSeat(slots, seat, dni);
  }

  /** An element splits at its `-` into the seat, which reads back as an int, and the DNI. */
  lemma EntryScans(seat: nat, dni: string)
    requires seat <= MaxInt32 && dni != "" && '-' !in dni
    ensures ScanTokens(Entry(seat, dni), '-') == [IntToString(seat), dni]
    ensures ParseInt(IntToString(seat)) == Ok(seat)
  {
    var number := IntToString(seat);
    assert '-' !in number by {
      forall k | 0 <= k < |number|
        ensures number[k] != '-'
      {
        assert IsDigit(number[k]);
      }
    }
    assert Join([number, dni], '-') == Entry(seat, dni) by {
      assert [number, dni][1..] == [dni];
    }
    ScanTokensOfJoin([number, dni], '-');
    ParseIntOfIntToString(seat);
  }

  lemma {:induction false} LoadEntriesSnoc(slots: seq<Option<string>>, es: seq<string>, e: string)
    ensures LoadEntries(slots, es + [e]) ==
      (var (r, after) := LoadEntries(slots, es); if r.Err? then (r, after) else LoadEntry(after, e))
    decreases |es|
  {
    if |es| == 0 {
      assert es + [e] == [e];
    } else {
      assert (es + [e])[1..] == es[1..] + [e];
      var (r, after) := LoadEntry(slots, es[0]);
      if r.Ok? {
        LoadEntriesSnoc(after, es[1..], e);
      }
    }
  }

  /** What reading slots 0 to `n - 1` back needs: each DNI there is non-empty and free of `-`. */
  predicate ReadableUpTo(slots: seq<Option<string>>, n: nat)
    requires n <= |slots|
  {
    n == 0 || (ReadableUpTo(slots, n - 1) && (slots[n - 1].Some? ==> slots[n - 1].value != "" && '-' !in slots[n - 1].value))
  }

  lemma {:induction false} RestorableReadable(slots: seq<Option<string>>, n: nat)
    requires Restorable(slots) && n <= |slots|
    ensures ReadableUpTo(slots, n)
    decreases n
  {
    if n > 0 {
      RestorableReadable(slots, n - 1);
      assert slots[n - 1].Some? ==> '-' !in slots[n - 1].value by {
        if slots[n - 1].Some? {
          assert DnisFree(slots, '-');
        }
      }
    }
  }

  /** The elements of slots 1 to `upTo - 1` load those slots into the empty table. */
  lemma {:induction false} LoadEntriesRestores(slots: seq<Option<string>>, upTo: nat)
    requires 1 <= upTo <= |slots| && upTo - 1 <= MaxInt32 && ReadableUpTo(slots, upTo)
    ensures LoadEntries(EmptyTable(|slots|), Entries(slots, upTo)) == (Ok(()), Prefix(slots, upTo))
    decreases upTo
  {
    if upTo == 1 {
      LoadNothing(slots);
    } else {
      LoadNextSeat(slots, upTo);
      LoadEntriesRestores(slots, upTo - 1);
    }
  }

  lemma LoadNothing(slots: seq<Option<string>>)
    requires |slots| >= 1
    ensures LoadEntries(EmptyTable(|slots|), Entries(slots, 1)) == (Ok(()), Prefix(slots, 1))
  {
    assert Entries(slots, 1) == [];
    assert Prefix(slots, 1) == EmptyTable(|slots|);
  }

  /** One more slot: the element of seat upTo-1, if any, extends the prefix loaded so far by that seat. */
  lemma LoadNextSeat(slots: seq<Option<string>>, upTo: nat)
    requires 2 <= upTo <= |slots| && upTo - 1 <= MaxInt32
    requires slots[upTo - 1].Some? ==> slots[upTo - 1].value != "" && '-' !in slots[upTo - 1].value
    ensures LoadEntries(EmptyTable(|slots|), Entries(slots, upTo - 1)) == (Ok(()), Prefix(slots, upTo - 1)) ==>
      LoadEntries(EmptyTable(|slots|), Entries(slots, upTo)) == (Ok(()), Prefix(slots, upTo))
  {
    var empty := EmptyTable(|slots|);
    var k := upTo - 1;
    if slots[k].Some? {
      var e := Entry(k, slots[k].value);
      assert Entries(slots, upTo) == Entries(slots, k) + [e];
      LoadEntriesSnoc(empty, Entries(slots, k), e);
      LoadEntryOfEntry(Prefix(slots, k), k, slots[k].value);
      PrefixStep(slots, upTo);
    } else {
      assert Entries(slots, upTo) == Entries(slots, k) + [];
      assert Entries(slots, k) + [] == Entries(slots, k);
      PrefixStep(slots, upTo);
    }
  }

  /** Widening the prefix by one slot copies that slot, and nothing when it is empty. */
  lemma PrefixStep(slots: seq<Option<string>>, upTo: nat)
    requires 2 <= upTo <= |slots|
    ensures Prefix(slots, upTo) == Prefix(slots, upTo - 1)[upTo - 1 := slots[upTo - 1]]
    ensures slots[upTo - 1].None? ==> Prefix(slots, upTo) == Prefix(slots, upTo - 1)
  {
    var a, b := Prefix(slots, upTo), Prefix(slots, upTo - 1);
    forall i | 0 <= i < |slots|
      ensures a[i] == b[upTo - 1 := slots[upTo - 1]][i]
      ensures slots[upTo - 1].None? ==> a[i] == b[i]
    {
    }
  }

  /**
   * Persistence round trip: the line `saveTravelStatus` writes for a table,
   * loaded by `loadPassengersIntoTravel` into the empty table a freshly read
   * travel has, gives the table back.
   */
  lemma StatusLineLoadsBack(id: string, slots: seq<Option<string>>)
    requires id != "" && ',' !in id && Restorable(slots)
    ensures LoadLine(EmptyTable(|slots|), StatusLine(id, slots)) == (Ok(()), slots)
  {
    LoadStatusLine(id, slots);
    RestorableReadable(slots, |slots|);
    LoadEntriesRestores(slots, |slots|);
    PrefixOfAll(slots);
  }

  /** Loading a status line loads its elements, the id being skipped. */
  lemma LoadStatusLine(id: string, slots: seq<Option<string>>)
    requires id != "" && ',' !in id && DnisFree(slots, ',')
    ensures LoadLine(EmptyTable(|slots|), StatusLine(id, slots)) == LoadEntries(EmptyTable(|slots|), Entries(slots, |slots|))
  {
    var es := Entries(slots, |slots|);
    StatusLineTokens(id, slots);
    assert ([id] + es)[1..] == es;
  }

  lemma PrefixOfAll(slots: seq<Option<string>>)
    requires |slots| >= 1 && slots[0].None?
    ensures Prefix(slots, |slots|) == slots
  {
    var p := Prefix(slots, |slots|);
    forall i | 0 <= i < |slots|
      ensures p[i] == slots[i]
    {
    }
  }

  /** Searching a list with the passenger appended finds it when no earlier passenger had its DNI. */
  lemma {:induction false} FindPassengerSnoc(ps: seq<Passenger>, p: Passenger)
    requires FindPassenger(ps, p.dni).None?
    ensures FindPassenger(ps + [p], p.dni) == Some(p)
    decreases |ps|
  {
    if |ps| == 0 {
      assert ps + [p] == [p];
    } else {
      assert (ps + [p])[1..] == ps[1..] + [p];
      FindPassengerSnoc(ps[1..], p);
    }
  }

  // ---------------------------------------------------------------------------
  // Loading a store from its files

  /** The position of the first id equal to `id`, or -1: the travel a status line is applied to. */
  function IndexOfId(ids: seq<string>, id: string): (k: int)
    ensures -1 <= k < |ids|
    ensures k >= 0 ==> ids[k] == id && forall j :: 0 <= j < k ==> ids[j] != id
    ensures k < 0 ==> forall j :: 0 <= j < |ids| ==> ids[j] != id
    decreases |ids|
  {
    if |ids| == 0 then -1
    else if ids[0] == id then 0
    else
      var k := IndexOfId(ids[1..], id);
      if k < 0 then -1 else k + 1
  }

  /**
   * One line of the status file: its first `,`-field is the id, and the line
   * is loaded into the first travel with that id only.  A line with no
   * field at all (`","`, say) is an ArrayIndexOutOfBoundsException.
   */
  function ApplyStatusLine(tables: seq<seq<Option<string>>>, ids: seq<string>, line: string)
    : (result: (Result<()>, seq<seq<Option<string>>>))
    requires |tables| == |ids|
    ensures |result.1| == |tables|
    ensures |Split(line, ',')| > 0 ==>
      forall j :: 0 <= j < |tables| && j != IndexOfId(ids, Split(line, ',')[0]) ==> result.1[j] == tables[j]
  {
    var fields := Split(line, ',');
    if |fields| == 0 then (Err(IndexOutOfBounds), tables)
    else
      var k := IndexOfId(ids, fields[0]);
      if k < 0 then (Ok(()), tables)
      else
        var (r, table) := LoadLine(tables[k], line);
        (r, tables[k := table])
  }

  /** `readTravelsStatus`: the lines in order; the first exception stops the reading. */
  function ApplyStatusLines(tables: seq<seq<Option<string>>>, ids: seq<string>, lines: seq<string>)
    : (result: (Result<()>, seq<seq<Option<string>>>))
    requires |tables| == |ids|
    ensures |result.1| == |tables|
    decreases |lines|
  {
    if |lines| == 0 then (Ok(()), tables)
    else
      var (r, after) := ApplyStatusLine(tables, ids, lines[0]);
      if r.Err? then (r, after) else ApplyStatusLines(after, ids, lines[1..])
  }

  /** Line i of the status file applied to the tables read so far. */
  lemma ApplyStatusLinesStep(tables: seq<seq<Option<string>>>, ids: seq<string>, lines: seq<string>, i: nat)
    requires |tables| == |ids| && i < |lines|
    ensures var (r, after) := ApplyStatusLine(tables, ids, lines[i]);
      ApplyStatusLines(tables, ids, lines[i..]) == if r.Err? then (r, after) else ApplyStatusLines(after, ids, lines[i + 1..])
  {
    assert lines[i..][1..] == lines[i + 1..];
  }

  /** Two records a hash set of travels keeps only once: equal ids and equal hash fields. */
  predicate SameTravel(a: TravelRecord, b: TravelRecord) {
    a.id == b.id && a.origin == b.origin && a.destiny == b.destiny && a.date == b.date && a.distribution == b.distribution
  }

  /**
   * One line of `readTravels`: a travel that parses is added unless the
   * same travel is already there; a line that raises NoSuchElementException
   * is reported and skipped, but the report itself indexes the line's first
   * `,`-field; any other exception stops the reading.
   */
  function ReadTravelLine(travels: seq<(TravelRecord, int)>, line: string): (Result<()>, seq<(TravelRecord, int)>) {
    match ParseTravel(line)
    case Ok(parsed) =>
      if exists j :: 0 <= j < |travels| && SameTravel(travels[j].0, parsed.0) then (Ok(()), travels)
      else (Ok(()), travels + [parsed])
    case Err(e) =>
      if !IsNoSuchElement(e) then (Err(e), travels)
      else if |Split(line, ',')| == 0 then (Err(IndexOutOfBounds), travels)
      else (Ok(()), travels)
  }

  /** `readTravels`: the lines in order, until one raises an exception the loop does not catch. */
  function ReadTravelsSpec(travels: seq<(TravelRecord, int)>, lines: seq<string>): (Result<()>, seq<(TravelRecord, int)>)
    decreases |lines|
  {
    if |lines| == 0 then (Ok(()), travels)
    else
      var (r, next) := ReadTravelLine(travels, lines[0]);
      if r.Err? then (r, travels) else ReadTravelsSpec(next, lines[1..])
  }

  /** `readPassengers`: every line that parses is added to the set; the others are reported and skipped. */
  function ReadPassengersSpec(passengers: seq<Passenger>, lines: seq<string>): seq<Passenger>
    decreases |lines|
  {
    if |lines| == 0 then passengers
    else
      match ParsePassenger(lines[0])
      case Ok(p) => ReadPassengersSpec(AddToPassengers(passengers, p), lines[1..])
      case Err(_) => ReadPassengersSpec(passengers, lines[1..])
  }

  /** The record and seat count of each travel object. */
  function Parsed(ts: seq<Travel>): (r: seq<(TravelRecord, int)>)
    ensures |r| == |ts| && forall i :: 0 <= i < |ts| ==> r[i] == (ts[i].record, ts[i].seatsNumber)
  {
    seq(|ts|, i requires 0 <= i < |ts| => (ts[i].record, ts[i].seatsNumber))
  }

  /** The ids of the travels, in iteration order. */
  function Ids(ts: seq<Travel>): (r: seq<string>)
    ensures |r| == |ts| && forall i :: 0 <= i < |ts| ==> r[i] == ts[i].record.id
  {
    seq(|ts|, i requires 0 <= i < |ts| => ts[i].record.id)
  }

  /** A status line whose id no travel has changes nothing. */
  lemma StatusLineForUnknownTravel(tables: seq<seq<Option<string>>>, ids: seq<string>, line: string)
    requires |tables| == |ids| && |Split(line, ',')| > 0 && Split(line, ',')[0] !in ids
    ensures ApplyStatusLine(tables, ids, line) == (Ok(()), tables)
  {
  }

  // ---------------------------------------------------------------------------
  // The store's files written and read back

  /** The status file `saveTravelsStatus` writes: one line per travel, in iteration order. */
  function StatusLines(ids: seq<string>, tables: seq<seq<Option<string>>>): (lines: seq<string>)
    requires |ids| == |tables|
    ensures |lines| == |ids| && forall i :: 0 <= i < |ids| ==> lines[i] == StatusLine(ids[i], tables[i])
  {
    seq(|ids|, i requires 0 <= i < |ids| => StatusLine(ids[i], tables[i]))
  }

  /** The tables of freshly read travels: the same sizes, every slot empty. */
  function EmptyTables(tables: seq<seq<Option<string>>>): (r: seq<seq<Option<string>>>)
    ensures |r| == |tables| && forall i :: 0 <= i < |tables| ==> r[i] == EmptyTable(|tables[i]|)
  {
    seq(|tables|, i requires 0 <= i < |tables| => EmptyTable(|tables[i]|))
  }

  /** The first `k` tables filled in, the others still empty. */
  function Restored(tables: seq<seq<Option<string>>>, k: nat): (r: seq<seq<Option<string>>>)
    ensures |r| == |tables|
    ensures forall i :: 0 <= i < |tables| ==> r[i] == if i < k then tables[i] else EmptyTable(|tables[i]|)
  {
    seq(|tables|, i requires 0 <= i < |tables| => if i < k then tables[i] else EmptyTable(|tables[i]|))
  }

  predicate DistinctIds(ids: seq<string>) {
    forall i, j :: 0 <= i < j < |ids| ==> ids[i] != ids[j]
  }

  /** A store whose status file reads back: distinct well-formed ids and restorable tables. */
  predicate RestorableStore(ids: seq<string>, tables: seq<seq<Option<string>>>) {
    |ids| == |tables| && DistinctIds(ids) &&
    forall i :: 0 <= i < |ids| ==> ids[i] != "" && ',' !in ids[i] && Restorable(tables[i])
  }

  /** The `k`-th status line lands in the `k`-th travel and fills its table. */
  lemma StatusLineApplies(tables: seq<seq<Option<string>>>, ids: seq<string>, k: nat)
    requires RestorableStore(ids, tables) && k < |ids|
    ensures ApplyStatusLine(Restored(tables, k), ids, StatusLine(ids[k], tables[k])) == (Ok(()), Restored(tables, k + 1))
  {
    var line := StatusLine(ids[k], tables[k]);
    SplitFirstField(ids[k], ',', Terminated(Entries(tables[k], |tables[k]|)));
    assert Split(line, ',')[0] == ids[k];
    assert IndexOfId(ids, ids[k]) == k;
    StatusLineLoadsBack(ids[k], tables[k]);
    assert Restored(tables, k)[k] == EmptyTable(|tables[k]|);
    assert Restored(tables, k)[k := tables[k]] == Restored(tables, k + 1);
  }

  lemma {:induction false} StatusLinesRestore(tables: seq<seq<Option<string>>>, ids: seq<string>, k: nat)
    requires RestorableStore(ids, tables) && k <= |ids|
    ensures ApplyStatusLines(Restored(tables, k), ids, StatusLines(ids, tables)[k..]) == (Ok(()), tables)
    decreases |ids| - k
  {
    if k == |ids| {
      assert Restored(tables, k) == tables;
    } else {
      StatusLineApplies(tables, ids, k);
      assert StatusLines(ids, tables)[k..][1..] == StatusLines(ids, tables)[k + 1..];
      StatusLinesRestore(tables, ids, k + 1);
    }
  }

  /**
   * Reading the status file the store wrote into freshly read travels gives
   * every table back.
   */
  lemma StatusFileLoadsBack(ids: seq<string>, tables: seq<seq<Option<string>>>)
    requires RestorableStore(ids, tables)
    ensures ApplyStatusLines(EmptyTables(tables), ids, StatusLines(ids, tables)) == (Ok(()), tables)
  {
    StatusLinesRestore(tables, ids, 0);
    assert Restored(tables, 0) == EmptyTables(tables);
    assert StatusLines(ids, tables)[0..] == StatusLines(ids, tables);
  }

  /** The passengers file `savePassengers` writes: each passenger's `save` line, in iteration order. */
  function PassengerLines(ps: seq<Passenger>): (lines: seq<string>)
    ensures |lines| == |ps| && forall i :: 0 <= i < |ps| ==> lines[i] == SaveLines(ps[i])[0]
  {
    seq(|ps|, i requires 0 <= i < |ps| => SaveLines(ps[i])[0])
  }

  /** A set of passengers whose file reads back: no two share DNI and name, and each field is restorable. */
  predicate RestorablePassengers(ps: seq<Passenger>) {
    (forall i, j :: 0 <= i < j < |ps| ==> !(ps[i].dni == ps[j].dni && ps[i].name == ps[j].name)) &&
    forall i :: 0 <= i < |ps| ==> CommaFree(ps[i]) && ps[i].dni != "" && ps[i].surname != ""
  }

  lemma {:induction false} PassengerLinesRestore(ps: seq<Passenger>, k: nat)
    requires RestorablePassengers(ps) && k <= |ps|
    ensures ReadPassengersSpec(ps[..k], PassengerLines(ps)[k..]) == ps
    decreases |ps| - k
  {
    if k == |ps| {
      assert ps[..k] == ps;
    } else {
      ReadPassengerLine(ps, k);
      PassengerLinesRestore(ps, k + 1);
    }
  }

  /** The line of passenger k parses back to it, and it is added after the ones before it. */
  lemma ReadPassengerLine(ps: seq<Passenger>, k: nat)
    requires RestorablePassengers(ps) && k < |ps|
    ensures ReadPassengersSpec(ps[..k], PassengerLines(ps)[k..]) == ReadPassengersSpec(ps[..k + 1], PassengerLines(ps)[k + 1..])
  {
    var lines := PassengerLines(ps)[k..];
    assert ParsePassenger(lines[0]) == Ok(ps[k]) by {
      assert lines[0] == SaveLines(ps[k])[0];
    }
    assert AddToPassengers(ps[..k], ps[k]) == ps[..k + 1] by {
      assert forall q :: q in ps[..k] ==> !(q.dni == ps[k].dni && q.name == ps[k].name);
      assert ps[..k] + [ps[k]] == ps[..k + 1];
    }
    assert lines[1..] == PassengerLines(ps)[k + 1..];
  }

  /** Reading the passengers file the store wrote gives the same passengers, in the same order. */
  lemma PassengerFileLoadsBack(ps: seq<Passenger>)
    requires RestorablePassengers(ps)
    ensures ReadPassengersSpec([], PassengerLines(ps)) == ps
  {
    PassengerLinesRestore(ps, 0);
    assert ps[..0] == [];
    assert PassengerLines(ps)[0..] == PassengerLines(ps);
  }

  class SalesDesk {
    var passengers: seq<Passenger>
    const travels: seq<Travel>

    /** The seat tables of the travels. */
    ghost function Tables(): set<object> {
      set t | t in travels :: t.seats
    }

    /** Each table has its allocated size and no two travels share one. */
    ghost predicate Valid() {
      (forall t :: t in travels ==> t.Valid()) &&
      (forall i, j :: 0 <= i < |travels| && 0 <= j < |travels| && i != j ==> travels[i].seats != travels[j].seats)
    }

    /** The contents of the tables, in iteration order of the travels. */
    ghost function SeatTables(): (r: seq<seq<Option<string>>>)
      reads Tables()
      ensures |r| == |travels| && forall i :: 0 <= i < |travels| ==> r[i] == travels[i].seats[..]
    {
      seq(|travels|, i requires 0 <= i < |travels| reads Tables() => travels[i].seats[..])
    }

    constructor (passengers: seq<Passenger>, travels: seq<Travel>)
      ensures this.passengers == passengers && this.travels == travels
    {
      this.passengers := passengers;
      this.travels := travels;
    }

    function SearchPassenger(dni: string): Option<Passenger>
      reads this
    {
      FindPassenger(passengers, dni)
    }

    function SearchTravel(id: string): Option<Travel> {
      FindTravel(travels, id)
    }

    /** The one table an operation on travel `id` may change. */
    ghost function SeatsOf(id: string): set<object> {
      match SearchTravel(id)
      case None => {}
      case Some(t) => {t.seats}
    }

    /** `addPassenger`: a known DNI is refused; a new passenger is added even when saving fails. */
    method AddPassenger(p: Passenger, saveFails: bool) returns (r: bool)
      modifies this
      ensures FindPassenger(old(passengers), p.dni).Some? ==> !r && passengers == old(passengers)
      ensures FindPassenger(old(passengers), p.dni).None? ==>
        passengers == old(passengers) + [p] && r == !saveFails && SearchPassenger(p.dni) == Some(p)
    {
      if SearchPassenger(p.dni).None? {
        passengers := AddToPassengers(passengers, p);
        FindPassengerSnoc(old(passengers), p);
        return !saveFails;
      }
      return false;
    }

    /** `deletePassenger`: null is dereferenced; an unknown DNI gives false. */
    method DeletePassenger(p: Option<Passenger>, saveFails: bool) returns (r: Result<bool>)
      modifies this
      ensures p.None? ==> r == Err(NullPointer) && passengers == old(passengers)
      ensures p.Some? && FindPassenger(old(passengers), p.value.dni).None? ==> r == Ok(false) && passengers == old(passengers)
      ensures p.Some? && FindPassenger(old(passengers), p.value.dni).Some? ==>
        r == Ok(!saveFails) && passengers == RemoveFromPassengers(old(passengers), p.value)
    {
      if p.None? {
        return Err(NullPointer);
      }
      if SearchPassenger(p.value.dni).Some? {
        passengers := RemoveFromPassengers(passengers, p.value);
        return Ok(!saveFails);
      }
      return Ok(false);
    }

    /** `assignSeat(travel, passenger, seat)`: a travel id the store lacks is dereferenced as null. */
    method AssignSeat(travelID: string, p: Passenger, seat: int) returns (r: Result<bool>)
      modifies SeatsOf(travelID)
      ensures SearchTravel(travelID).None? ==> r == Err(NullPointer)
      ensures SearchTravel(travelID).Some? ==>
        var t := SearchTravel(travelID).value;
        (r, t.seats[..]) == AssignSeatIn(old(t.seats[..]), t.seatsNumber, seat, p.dni)
    {
      var found := SearchTravel(travelID);
      if found.None? {
        return Err(NullPointer);
      }
      var t := found.value;
      var free := t.IsSeatFree(seat);
      if free.Err? {
        return Err(free.exc);
      }
      if free.value {
        r := t.AssignSeat(seat, p.dni);
      } else {
        r := Ok(false);
      }
    }

    /** `deallocateSeat(travel, seat)`. */
    method DeallocateSeat(travelID: string, seat: int) returns (r: Result<bool>)
      modifies SeatsOf(travelID)
      ensures SearchTravel(travelID).None? ==> r == Err(NullPointer)
      ensures SearchTravel(travelID).Some? ==>
        var t := SearchTravel(travelID).value;
        (r, t.seats[..]) == DeallocateSeatIn(old(t.seats[..]), t.seatsNumber, seat)
    {
      var found := SearchTravel(travelID);
      if found.None? {
        return Err(NullPointer);
      }
      var t := found.value;
      var free := t.IsSeatFree(seat);
      if free.Err? {
        return Err(free.exc);
      }
      if !free.value {
        r := t.DeallocateSeat(seat);
      } else {
        r := Ok(false);
      }
    }

    /** `whoIsSited(travelID, seat)`: the passenger whose DNI the seat holds, or null. */
    function WhoIsSited(travelID: string, seat: int): (r: Result<Option<Passenger>>)
      reads this, Tables()
      ensures SearchTravel(travelID).None? ==> r == Err(NullPointer)
      ensures SearchTravel(travelID).Some? ==>
        var t := SearchTravel(travelID).value;
        match WhoIsSitedIn(t.seats[..], t.seatsNumber, seat)
        case Err(e) => r == Err(e)
        case Ok(None) => r == Ok(None)
        case Ok(Some(dni)) => r == Ok(FindPassenger(passengers, dni))
    {
      match SearchTravel(travelID)
      case None => Err(NullPointer)
      case Some(t) =>
        match t.WhoIsSited(seat)
        case Err(e) => Err(e)
        case Ok(dni) => if dni.None? then Ok(None) else Ok(SearchPassenger(dni.value))
    }

    /** `searchTravelsPerDate(date)`. */
    function SearchTravelsPerDate(day: int, month: int, year: int): seq<Travel> {
      OnDate(travels, day, month, year)
    }

    /** `loadPassengersIntoTravel(travel, line)`, with the `SEAT` code kept for a clash. */
    static method LoadPassengersIntoTravel(travel: Travel, line: string) returns (r: Result<()>)
      modifies travel.seats
      ensures (r, travel.seats[..]) == LoadLine(old(travel.seats[..]), line)
    {
      var elements := ScanTokens(line, ',');
      if |elements| == 0 {
        return Err(NoSuchElement);
      }
      var i := 1;
      while i < |elements|
        invariant 1 <= i <= |elements|
        invariant LoadEntries(travel.seats[..], elements[i..]) == LoadLine(old(travel.seats[..]), line)
      {
        ghost var before := travel.seats[..];
        var element := elements[i];
        LoadEntriesUnfold(before, elements[i..]);
        assert elements[i..][1..] == elements[i + 1..];
        var seatDni := ScanTokens(element, '-');
        var seat := NextInt(seatDni, 0);
        if seat.Err? {
          return Err(seat.exc);
        }
        var dni := NextToken(seatDni, 1);
        if dni.Err? {
          return Err(dni.exc);
        }
        var stored := travel.AssignSeat(seat.value, dni.value);
        assert (stored, travel.seats[..]) == AssignIn(before, seat.value, dni.value);
        if stored.Err? {
          return Err(stored.exc);
        }
        if !stored.value {
          return Err(SeatsRead("SEAT", None));
        }
        assert LoadEntry(before, element) == (Ok(()), travel.seats[..]);
        i := i + 1;
      }
      r := Ok(());
    }
  
    /** `savePassengers`: one line per passenger, in iteration order. */
    method SavePassengers() returns (lines: seq<string>)
      ensures lines == PassengerLines(passengers)
    {
      lines := [];
      for i := 0 to |passengers|
        invariant lines == PassengerLines(passengers[..i])
      {
        var line := SaveLines(passengers[i]);
        assert passengers[..i + 1][..i] == passengers[..i];
        lines := lines + line;
      }
      assert passengers[..|passengers|] == passengers;
    }

    /** `saveTravelsStatus`: each travel writes its status line, in iteration order. */
    method SaveTravelsStatus() returns (lines: seq<string>)
      ensures lines == StatusLines(Ids(travels), SeatTables())
    {
      lines := [];
      for i := 0 to |travels|
        invariant |lines| == i
        invariant forall k :: 0 <= k < i ==> lines[k] == StatusLine(travels[k].record.id, travels[k].seats[..])
      {
        var line := travels[i].SaveTravelStatus();
        lines := lines + [line];
      }
    }

    /**
     * `readTravelsStatus`: each line goes to the first travel whose id is its
     * first field, and the first exception stops the reading.
     */
    method ReadTravelsStatus(lines: seq<string>) returns (r: Result<()>)
      requires Valid()
      modifies Tables()
      ensures (r, SeatTables()) == ApplyStatusLines(old(SeatTables()), Ids(travels), lines)
    {
      var i := 0;
      while i < |lines|
        invariant 0 <= i <= |lines|
        invariant ApplyStatusLines(SeatTables(), Ids(travels), lines[i..]) == ApplyStatusLines(old(SeatTables()), Ids(travels), lines)
      {
        ApplyStatusLinesStep(SeatTables(), Ids(travels), lines, i);
        r := ReadStatusLine(lines[i]);
        if r.Err? {
          return;
        }
        i := i + 1;
      }
      r := Ok(());
    }

    /** The body of the `readTravelsStatus` loop: the travel named by the line's first field loads the line. */
    method ReadStatusLine(line: string) returns (r: Result<()>)
      requires Valid()
      modifies Tables()
      ensures (r, SeatTables()) == ApplyStatusLine(old(SeatTables()), Ids(travels), line)
    {
      ghost var before := SeatTables();
      var fields := Split(line, ',');
      if |fields| == 0 {
        return Err(IndexOutOfBounds);
      }
      var readID := fields[0];
      var k := 0;
      while k < |travels| && readID != travels[k].record.id
        invariant 0 <= k <= |travels|
        invariant forall j :: 0 <= j < k ==> Ids(travels)[j] != readID
      {
        k := k + 1;
      }
      if k == |travels| {
        assert IndexOfId(Ids(travels), readID) == -1;
        return Ok(());
      }
      assert IndexOfId(Ids(travels), readID) == k;
      r := LoadPassengersIntoTravel(travels[k], line);
      assert SeatTables() == before[k := travels[k].seats[..]] by {
        forall j | 0 <= j < |travels| && j != k
          ensures travels[j].seats[..] == before[j]
        {
          assert travels[j].seats != travels[k].seats;
        }
      }
    }
  }

  /** Every seat of the travel is free, as the constructor leaves them. */
  predicate AllFree(t: Travel)
    reads t.seats
  {
    forall i :: 0 <= i < t.seats.Length ==> t.seats[i].None?
  }

  /**
   * What a hash set of travels can hold: no two elements the set takes for
   * the same travel, and every seat count one the seat array accepts.
   */
  predicate StoredTravels(travels: seq<(TravelRecord, int)>) {
    (forall i, j :: 0 <= i < j < |travels| ==> !SameTravel(travels[i].0, travels[j].0)) &&
    forall i :: 0 <= i < |travels| ==> 0 <= travels[i].1 + 1
  }

  lemma ParseTravelSize(line: string)
    ensures ParseTravel(line).Ok? ==> 0 <= ParseTravel(line).value.1 + 1
  {
  }

  /** `readTravels` keeps the travels a hash set can hold. */
  lemma {:induction false} ReadTravelsStored(travels: seq<(TravelRecord, int)>, lines: seq<string>)
    requires StoredTravels(travels)
    ensures StoredTravels(ReadTravelsSpec(travels, lines).1)
    decreases |lines|
  {
    if |lines| > 0 {
      ReadTravelLineStored(travels, lines[0]);
      var (r, next) := ReadTravelLine(travels, lines[0]);
      if r.Ok? {
        ReadTravelsStored(next, lines[1..]);
      }
    }
  }

  /** One line read keeps the travels a hash set can hold. */
  lemma ReadTravelLineStored(travels: seq<(TravelRecord, int)>, line: string)
    requires StoredTravels(travels)
    ensures StoredTravels(ReadTravelLine(travels, line).1)
  {
    ParseTravelSize(line);
  }

  /** The allocation half of `readTravels`: one fresh travel per record, in order. */
  method BuildTravels(records: seq<(TravelRecord, int)>) returns (travels: seq<Travel>)
    requires forall k :: 0 <= k < |records| ==> 0 <= records[k].1 + 1
    ensures Parsed(travels) == records
    ensures forall k :: 0 <= k < |travels| ==> fresh(travels[k].seats) && travels[k].Valid() && AllFree(travels[k])
    ensures forall i, j :: 0 <= i < |travels| && 0 <= j < |travels| && i != j ==> travels[i].seats != travels[j].seats
  {
    travels := [];
    for i := 0 to |records|
      invariant Parsed(travels) == records[..i]
      invariant forall k :: 0 <= k < |travels| ==> fresh(travels[k].seats) && travels[k].Valid() && AllFree(travels[k])
      invariant forall i, j :: 0 <= i < |travels| && 0 <= j < |travels| && i != j ==> travels[i].seats != travels[j].seats
    {
      var t := new Travel(records[i].0, records[i].1);
      assert Parsed(travels + [t]) == Parsed(travels) + [records[i]];
      travels := travels + [t];
    }
    assert records[..|records|] == records;
  }

  /**
   * `readTravels`: the records of the lines as the reading loop keeps them,
   * each given a fresh table of empty seats.
   */
  method ReadTravels(lines: seq<string>) returns (travels: seq<Travel>, r: Result<()>)
    ensures (r, Parsed(travels)) == ReadTravelsSpec([], lines)
    ensures forall k :: 0 <= k < |travels| ==> fresh(travels[k].seats) && travels[k].Valid() && AllFree(travels[k])
    ensures forall i, j :: 0 <= i < |travels| && 0 <= j < |travels| && i != j ==> travels[i].seats != travels[j].seats
  {
    var read := ReadTravelsSpec([], lines);
    ReadTravelsStored([], lines);
    travels := BuildTravels(read.1);
    r := read.0;
  }

  /** The tables of travels whose every slot is empty. */
  lemma EmptySeatTables(travels: seq<Travel>, tables: seq<seq<Option<string>>>)
    requires |tables| == |travels| && forall i :: 0 <= i < |travels| ==> tables[i] == travels[i].seats[..]
    requires forall k :: 0 <= k < |travels| ==> AllFree(travels[k])
    ensures tables == EmptyTables(tables)
  {
    forall i | 0 <= i < |travels|
      ensures tables[i] == EmptyTable(|tables[i]|)
    {
      assert AllFree(travels[i]);
    }
  }

  /** Empty tables for travel records just read: one slot more than each seat count. */
  function BlankTables(records: seq<(TravelRecord, int)>): (r: seq<seq<Option<string>>>)
    requires forall k :: 0 <= k < |records| ==> 0 <= records[k].1 + 1
    ensures |r| == |records| && forall i :: 0 <= i < |records| ==> r[i] == EmptyTable(records[i].1 + 1)
  {
    seq(|records|, i requires 0 <= i < |records| => EmptyTable(records[i].1 + 1))
  }

  /** The ids of travel records, in order. */
  function RecordIds(records: seq<(TravelRecord, int)>): (r: seq<string>)
    ensures |r| == |records| && forall i :: 0 <= i < |records| ==> r[i] == records[i].0.id
  {
    seq(|records|, i requires 0 <= i < |records| => records[i].0.id)
  }

  /**
   * How the `SalesDesk` constructor ends, from the store's files alone: the
   * exception `readTravels` raises, or else the one `readTravelsStatus`
   * raises over the fresh empty tables.
   */
  function LoadOutcome(files: StoreFiles): Result<()> {
    var (read, records) := ReadTravelsSpec([], files.travelLines);
    if read.Err? then read
    else
      ReadTravelsStored([], files.travelLines);
      ApplyStatusLines(BlankTables(records), RecordIds(records), files.statusLines).0
  }

  /** `readPassengers`: the passengers of the lines that parse. */
  method ReadPassengers(lines: seq<string>) returns (passengers: seq<Passenger>)
    ensures passengers == ReadPassengersSpec([], lines)
  {
    passengers := [];
    for i := 0 to |lines|
      invariant ReadPassengersSpec(passengers, lines[i..]) == ReadPassengersSpec([], lines)
    {
      assert lines[i..][1..] == lines[i + 1..];
      var parsed := ParsePassenger(lines[i]);
      if parsed.Ok? {
        passengers := AddToPassengers(passengers, parsed.value);
      }
    }
  }

  /**
   * The `SalesDesk` constructor: fresh sets, then the travels, the
   * passengers and the seat status are read in that order.  An exception
   * leaves what was read so far in the store.
   */
  method NewSalesDesk(files: StoreFiles) returns (desk: SalesDesk, r: Result<()>)
    ensures fresh(desk) && desk.Valid()
    ensures forall t :: t in desk.travels ==> fresh(t.seats)
    ensures Parsed(desk.travels) == ReadTravelsSpec([], files.travelLines).1
    ensures ReadTravelsSpec([], files.travelLines).0.Err? ==>
      r == ReadTravelsSpec([], files.travelLines).0 && desk.passengers == [] &&
      desk.SeatTables() == EmptyTables(desk.SeatTables())
    ensures ReadTravelsSpec([], files.travelLines).0.Ok? ==>
      desk.passengers == ReadPassengersSpec([], files.passengerLines) &&
      (r, desk.SeatTables()) == ApplyStatusLines(EmptyTables(desk.SeatTables()), Ids(desk.travels), files.statusLines)
    ensures r == LoadOutcome(files)
  {
    var travels, read := ReadTravels(files.travelLines);
    if read.Err? {
      desk := new SalesDesk([], travels);
      EmptySeatTables(travels, desk.SeatTables());
      return desk, read;
    }
    var passengers := ReadPassengers(files.passengerLines);
    desk := new SalesDesk(passengers, travels);
    EmptySeatTables(travels, desk.SeatTables());
    ghost var empty := desk.SeatTables();
    r := desk.ReadTravelsStatus(files.statusLines);
    assert EmptyTables(desk.SeatTables()) == empty by {
      forall i | 0 <= i < |travels|
        ensures |desk.SeatTables()[i]| == |empty[i]|
      {
        assert |desk.SeatTables()[i]| == travels[i].seats.Length;
      }
    }
    assert empty == BlankTables(Parsed(travels));
    assert Ids(travels) == RecordIds(Parsed(travels));
  }
}

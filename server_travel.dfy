/**
 * The server's travel: a record read from one comma-separated line and a
 * table of seats, slot `i` holding the DNI of the passenger on seat `i`.
 */
module ServerTravel {
  import opened Outcomes
  import opened Text

  /** A GregorianCalendar reduced to the fields a travel line carries; the month is 0-based, as Java keeps it. */
  datatype Date = Date(day: int, month: int, year: int, hour: int, minute: int)

  /** What the line constructor reads, in the order it reads it. */
  datatype TravelRecord = TravelRecord(id: string, origin: string, destiny: string, date: Date,
                                       distribution: string, info: string)

  /** `parseDate(scanner)`: five ints, day, month, year, hour and minute, from token `at` on. */
  function ParseDate(tokens: seq<string>, at: nat): (r: Result<Date>)
    ensures r.Err? ==> IsNoSuchElement(r.exc)
  {
    var day :- NextInt(tokens, at);
    var month :- NextInt(tokens, at + 1);
    var year :- NextInt(tokens, at + 2);
    var hour :- NextInt(tokens, at + 3);
    var minute :- NextInt(tokens, at + 4);
    Ok(Date(day, month, year, hour, minute))
  }

  /**
   * The fields the line constructor reads with a scanner delimited by `,`:
   * id, origin, destiny, the date, the seat distribution and the info.
   * A missing token or a date part that is no int is a NoSuchElementException.
   */
  function ParseRecord(line: string): (r: Result<TravelRecord>)
    ensures r.Err? ==> IsNoSuchElement(r.exc)
  {
    var tokens := ScanTokens(line, ',');
    var id :- NextToken(tokens, 0);
    var origin :- NextToken(tokens, 1);
    var destiny :- NextToken(tokens, 2);
    var date :- ParseDate(tokens, 3);
    var distribution :- NextToken(tokens, 8);
    var info :- NextToken(tokens, 9);
    Ok(TravelRecord(id, origin, destiny, date, distribution, info))
  }

  /**
   * `seatsNumber`: the two ints of the distribution, delimited by `x`,
   * multiplied, plus one, all in 32-bit int arithmetic.
   */
  function SeatsNumber(distribution: string): (r: Result<int>)
    ensures r.Err? ==> IsNoSuchElement(r.exc)
    ensures r.Ok? ==> InInt32(r.value)
  {
    var tokens := ScanTokens(distribution, 'x');
    var columns :- NextInt(tokens, 0);
    var rows :- NextInt(tokens, 1);
    Ok(Wrap32(Wrap32(columns * rows) + 1))
  }

  /**
   * The seat count of a parsed record.  The seat array has `seatsNumber + 1`
   * slots, so a count below -1, or one whose successor wraps around, is a
   * NegativeArraySizeException.
   */
  function SizeTable(record: TravelRecord): (r: Result<int>)
    ensures r.Ok? ==> SeatsNumber(record.distribution) == r && 0 <= r.value + 1 <= MaxInt32
    ensures r.Err? ==> r.exc == NegativeArraySize || SeatsNumber(record.distribution) == r
  {
    var seatsNumber :- SeatsNumber(record.distribution);
    Wrap32Successor(seatsNumber);
    if Wrap32(seatsNumber + 1) < 0 then Err(NegativeArraySize) else Ok(seatsNumber)
  }

  /** `new Travel(line)` without the allocation: the record and its seat count. */
  function ParseTravel(line: string): Result<(TravelRecord, int)> {
    match ParseRecord(line)
    case Err(e) => Err(e)
    case Ok(record) =>
      match SizeTable(record)
      case Err(e) => Err(e)
      case Ok(n) => Ok((record, n))
  }

  /** The ten fields `toString` writes, in the order the line constructor reads them. */
  function TravelFields(r: TravelRecord): seq<string> {
    [r.id, r.origin, r.destiny,
     IntToString(r.date.day), IntToString(r.date.month), IntToString(r.date.year),
     IntToString(r.date.hour), IntToString(r.date.minute),
     r.distribution, r.info]
  }

  /** `toString()`: the ten fields separated by commas. */
  function FormatRecord(r: TravelRecord): string {
    Join(TravelFields(r), ',')
  }

  /**
   * A record survives being written and read back when its text fields hold
   * no comma, its date parts are ints, and its first and last fields are
   * non-empty (the scanner skips an empty first or last field).
   */
  predicate WellFormed(r: TravelRecord) {
    ',' !in r.id && ',' !in r.origin && ',' !in r.destiny && ',' !in r.distribution && ',' !in r.info &&
    r.id != "" && r.info != "" &&
    InInt32(r.date.day) && InInt32(r.date.month) && InInt32(r.date.year) &&
    InInt32(r.date.hour) && InInt32(r.date.minute)
  }

  /** Parsing the `toString()` line of a well-formed record gives the record back. */
  lemma ParseFormatRecord(r: TravelRecord)
    requires WellFormed(r)
    ensures ParseRecord(FormatRecord(r)) == Ok(r)
  {
    ScanFormatRecord(r);
    ParseDateOfFields(r);
  }

  /** The scanner finds exactly the ten fields in the `toString()` line. */
  lemma ScanFormatRecord(r: TravelRecord)
    requires WellFormed(r)
    ensures ScanTokens(FormatRecord(r), ',') == TravelFields(r)
  {
    var fs := TravelFields(r);
    IntToStringCommaFree(r.date.day);
    IntToStringCommaFree(r.date.month);
    IntToStringCommaFree(r.date.year);
    IntToStringCommaFree(r.date.hour);
    IntToStringCommaFree(r.date.minute);
    assert SeparatorFree(fs, ',');
    ScanTokensOfJoin(fs, ',');
  }

  /** The five date fields read back as the date. */
  lemma ParseDateOfFields(r: TravelRecord)
    requires InInt32(r.date.day) && InInt32(r.date.month) && InInt32(r.date.year)
    requires InInt32(r.date.hour) && InInt32(r.date.minute)
    ensures ParseDate(TravelFields(r), 3) == Ok(r.date)
  {
    ParseDateOfInts(TravelFields(r), 3, r.date);
  }

  /** Five ints written in a row from `at` on are read back as the date they spell. */
  lemma ParseDateOfInts(tokens: seq<string>, at: nat, d: Date)
    requires at + 5 <= |tokens|
    requires tokens[at] == IntToString(d.day) && tokens[at + 1] == IntToString(d.month)
    requires tokens[at + 2] == IntToString(d.year) && tokens[at + 3] == IntToString(d.hour)
    requires tokens[at + 4] == IntToString(d.minute)
    requires InInt32(d.day) && InInt32(d.month) && InInt32(d.year) && InInt32(d.hour) && InInt32(d.minute)
    ensures ParseDate(tokens, at) == Ok(d)
  {
    NextIntOfIntToString(tokens, at, d.day);
    NextIntOfIntToString(tokens, at + 1, d.month);
    NextIntOfIntToString(tokens, at + 2, d.year);
    NextIntOfIntToString(tokens, at + 3, d.hour);
    NextIntOfIntToString(tokens, at + 4, d.minute);
  }

  lemma NextIntOfIntToString(tokens: seq<string>, k: nat, v: int)
    requires k < |tokens| && tokens[k] == IntToString(v) && InInt32(v)
    ensures NextInt(tokens, k) == Ok(v)
  {
    ParseIntOfIntToString(v);
  }

  lemma IntToStringCommaFree(i: int)
    ensures ',' !in IntToString(i)
  {
    var s := IntToString(i);
    forall k | 0 <= k < |s|
      ensures s[k] != ','
    {
      if i < 0 && k > 0 {
        assert s[k] == NatToString(-i)[k - 1];
      }
    }
  }

  /** `equals`: two travels are equal exactly when their ids are. */
  predicate Equals(a: TravelRecord, b: TravelRecord) {
    a.id == b.id
  }

  // ---------------------------------------------------------------------------
  // The seat table, as the sequence of its slots

  /** `isSeatFree(seat)`: false above the seat count, otherwise whether the slot is empty. */
  function IsSeatFreeIn(slots: seq<Option<string>>, seatsNumber: int, seat: int): Result<bool> {
    if seat > seatsNumber then Ok(false)
    else if 0 <= seat < |slots| then Ok(slots[seat].None?)
    else Err(IndexOutOfBounds)
  }

  /** `whoIsSited(seat)`: null for a free seat, otherwise the slot, read even above the seat count. */
  function WhoIsSitedIn(slots: seq<Option<string>>, seatsNumber: int, seat: int): Result<Option<string>> {
    match IsSeatFreeIn(slots, seatsNumber, seat)
    case Err(e) => Err(e)
    case Ok(free) =>
      if free then Ok(None)
      else if 0 <= seat < |slots| then Ok(slots[seat])
      else Err(IndexOutOfBounds)
  }

  /** `assignSeat(seat, passengerID)`: fills an empty slot; an occupied one is left alone. */
  function AssignIn(slots: seq<Option<string>>, seat: int, passengerID: string): (Result<bool>, seq<Option<string>>) {
    if !(0 <= seat < |slots|) then (Err(IndexOutOfBounds), slots)
    else if slots[seat].None? then (Ok(true), slots[seat := Some(passengerID)])
    else (Ok(false), slots)
  }

  /** `deallocateSeat(seat)`: empties the slot and reports success. */
  function DeallocateIn(slots: seq<Option<string>>, seat: int): (Result<bool>, seq<Option<string>>) {
    if !(0 <= seat < |slots|) then (Err(IndexOutOfBounds), slots)
    else (Ok(true), slots[seat := None])
  }

  /** A table of `seatsNumber + 1` slots, as the constructor allocates it. */
  predicate TableOf(slots: seq<Option<string>>, seatsNumber: int) {
    |slots| == seatsNumber + 1
  }

  /**
   * On a table of the allocated size, `isSeatFree` is false above the seat
   * count, fails below zero, and otherwise tells whether the slot is empty.
   */
  lemma IsSeatFreeCases(slots: seq<Option<string>>, seatsNumber: int, seat: int)
    requires TableOf(slots, seatsNumber)
    ensures IsSeatFreeIn(slots, seatsNumber, seat) == Ok(true) <==> 0 <= seat <= seatsNumber && slots[seat].None?
    ensures IsSeatFreeIn(slots, seatsNumber, seat).Err? <==> seat < 0
  {
  }

  /**
   * `whoIsSited` gives the DNI of an occupied seat and null for a free one;
   * a seat above the seat count is not free, and reading its slot goes past
   * the end of the table.
   */
  lemma WhoIsSitedCases(slots: seq<Option<string>>, seatsNumber: int, seat: int)
    requires TableOf(slots, seatsNumber)
    ensures 0 <= seat <= seatsNumber ==> WhoIsSitedIn(slots, seatsNumber, seat) == Ok(slots[seat])
    ensures seat < 0 || seat > seatsNumber ==> WhoIsSitedIn(slots, seatsNumber, seat) == Err(IndexOutOfBounds)
  {
  }

  /**
   * Assigning a free seat makes it occupied by that passenger; an occupied
   * seat refuses, and no other slot ever changes.
   */
  lemma AssignThenWhoIsSited(slots: seq<Option<string>>, seatsNumber: int, seat: int, passengerID: string)
    requires TableOf(slots, seatsNumber) && 0 <= seat <= seatsNumber
    ensures var (r, after) := AssignIn(slots, seat, passengerID);
      r == Ok(slots[seat].None?) &&
      (r == Ok(true) ==> WhoIsSitedIn(after, seatsNumber, seat) == Ok(Some(passengerID)) &&
                         IsSeatFreeIn(after, seatsNumber, seat) == Ok(false)) &&
      (r == Ok(false) ==> after == slots) &&
      |after| == |slots| && forall i :: 0 <= i < |slots| && i != seat ==> after[i] == slots[i]
  {
  }

  /** Deallocating right after a successful assignment restores the table. */
  lemma DeallocateUndoesAssign(slots: seq<Option<string>>, seat: int, passengerID: string)
    requires AssignIn(slots, seat, passengerID).0 == Ok(true)
    ensures DeallocateIn(AssignIn(slots, seat, passengerID).1, seat) == (Ok(true), slots)
  {
    assert slots[seat := Some(passengerID)][seat := None] == slots;
  }

  /** A deallocated seat within the seat count is free. */
  lemma DeallocateFrees(slots: seq<Option<string>>, seatsNumber: int, seat: int)
    requires TableOf(slots, seatsNumber) && 0 <= seat <= seatsNumber
    ensures var (r, after) := DeallocateIn(slots, seat);
      r == Ok(true) && IsSeatFreeIn(after, seatsNumber, seat) == Ok(true) &&
      WhoIsSitedIn(after, seatsNumber, seat) == Ok(None)
  {
  }

  // ---------------------------------------------------------------------------
  // The status line

  /** One `seat-dni` element of a status line. */
  function Entry(seat: int, dni: string): string {
    IntToString(seat) + "-" + dni
  }

  /** The elements for the occupied slots 1 .. upTo-1, in ascending order. */
  function Entries(slots: seq<Option<string>>, upTo: nat): (es: seq<string>)
    requires upTo <= |slots|
    ensures |es| <= upTo
  {
    if upTo <= 1 then []
    else Entries(slots, upTo - 1) + (if slots[upTo - 1].Some? then [Entry(upTo - 1, slots[upTo - 1].value)] else [])
  }

  /** The elements, each followed by a comma. */
  function Terminated(es: seq<string>): string {
    if |es| == 0 then "" else Terminated(es[..|es| - 1]) + es[|es| - 1] + ","
  }

  /** Slot i adds its element and a comma to the status line built from the slots before it. */
  lemma StatusLineStep(id: string, slots: seq<Option<string>>, i: nat)
    requires 1 <= i < |slots|
    ensures id + "," + Terminated(Entries(slots, i + 1)) ==
      id + "," + Terminated(Entries(slots, i)) + (if slots[i].Some? then Entry(i, slots[i].value) + "," else "")
  {
    var before := Entries(slots, i);
    if slots[i].Some? {
      var e := Entry(i, slots[i].value);
      assert Entries(slots, i + 1) == before + [e];
      TerminatedSnoc(before, e);
      ConcatAssoc(id + ",", Terminated(before), e + ",");
    } else {
      assert Entries(slots, i + 1) == before + [];
      assert before + [] == before;
    }
  }

  lemma TerminatedSnoc(es: seq<string>, e: string)
    ensures Terminated(es + [e]) == Terminated(es) + (e + ",")
  {
    assert (es + [e])[..|es|] == es;
    ConcatAssoc(Terminated(es), e, ",");
  }

  /** The line `saveTravelStatus` prints: the id and a comma, then `i-dni,` for each occupied slot i >= 1. */
  function StatusLine(id: string, slots: seq<Option<string>>): string {
    id + "," + Terminated(Entries(slots, |slots|))
  }

  /** No DNI in the table contains the character. */
  predicate DnisFree(slots: seq<Option<string>>, c: char) {
    forall i :: 0 <= i < |slots| && slots[i].Some? ==> c !in slots[i].value
  }

  lemma {:induction false} EntriesCommaFree(slots: seq<Option<string>>, upTo: nat)
    requires upTo <= |slots| && DnisFree(slots, ',')
    ensures SeparatorFree(Entries(slots, upTo), ',')
    decreases upTo
  {
    if upTo > 1 {
      EntriesCommaFree(slots, upTo - 1);
      if slots[upTo - 1].Some? {
        IntToStringCommaFree(upTo - 1);
      }
    }
  }

  lemma {:induction false} TerminatedIsJoin(es: seq<string>)
    requires |es| >= 1
    ensures Terminated(es) == Join(es, ',') + ","
    decreases |es|
  {
    if |es| > 1 {
      var init := es[..|es| - 1];
      TerminatedIsJoin(init);
      JoinSnoc(init, es[|es| - 1], ',');
      assert init + [es[|es| - 1]] == es;
    } else {
      assert es[..0] == [];
    }
  }

  /** A status line is its id, its elements and an empty last field, joined by commas. */
  lemma StatusLineIsJoin(id: string, es: seq<string>)
    ensures id + "," + Terminated(es) == Join([id] + es + [""], ',')
  {
    if |es| == 0 {
      assert [id] + es + [""] == [id, ""];
      assert [id, ""][1..] == [""];
    } else {
      TerminatedIsJoin(es);
      JoinSnoc([id] + es, "", ',');
      assert ([id] + es)[1..] == es;
    }
  }

  /**
   * Scanning a status line with `,` as delimiter gives the id and then the
   * elements: the comma after the last element yields no token.
   */
  lemma StatusLineTokens(id: string, slots: seq<Option<string>>)
    requires id != "" && ',' !in id && DnisFree(slots, ',')
    ensures ScanTokens(StatusLine(id, slots), ',') == [id] + Entries(slots, |slots|)
  {
    var es := Entries(slots, |slots|);
    var fs := [id] + es + [""];
    StatusLineIsJoin(id, es);
    EntriesCommaFree(slots, |slots|);
    assert SeparatorFree(fs, ',') by {
      forall k | 0 <= k < |fs|
        ensures ',' !in fs[k]
      {
        if 0 < k < |fs| - 1 {
          assert fs[k] == es[k - 1];
        }
      }
    }
    FieldsOfJoin(fs, ',');
    assert fs[..|fs| - 1] == [id] + es;
  }

  class Travel {
    const record: TravelRecord
    const seatsNumber: int
    const seats: array<Option<string>>

    /** The table has the size the constructor gave it. */
    predicate Valid() {
      seats.Length == seatsNumber + 1
    }

    /** The allocation part of the constructor: every slot empty. */
    constructor (record: TravelRecord, seatsNumber: int)
      requires 0 <= seatsNumber + 1
      ensures this.record == record && this.seatsNumber == seatsNumber && Valid()
      ensures fresh(seats) && forall i :: 0 <= i < seats.Length ==> seats[i].None?
    {
      this.record := record;
      this.seatsNumber := seatsNumber;
      seats := new Option<string>[seatsNumber + 1](_ => None);
    }

    function ToString(): string {
      FormatRecord(record)
    }

    function IsSeatFree(seat: int): (r: Result<bool>)
      reads seats
      ensures r == IsSeatFreeIn(seats[..], seatsNumber, seat)
    {
      if seat > seatsNumber then Ok(false)
      else if 0 <= seat < seats.Length then Ok(seats[seat].None?)
      else Err(IndexOutOfBounds)
    }

    function WhoIsSited(seat: int): (r: Result<Option<string>>)
      reads seats
      ensures r == WhoIsSitedIn(seats[..], seatsNumber, seat)
    {
      match IsSeatFree(seat)
      case Err(e) => Err(e)
      case Ok(free) =>
        if free then Ok(None)
        else if 0 <= seat < seats.Length then Ok(seats[seat])
        else Err(IndexOutOfBounds)
    }

    method AssignSeat(seat: int, passengerID: string) returns (r: Result<bool>)
      modifies seats
      ensures (r, seats[..]) == AssignIn(old(seats[..]), seat, passengerID)
    {
      if !(0 <= seat < seats.Length) {
        return Err(IndexOutOfBounds);
      }
      if seats[seat].None? {
        seats[seat] := Some(passengerID);
        return Ok(true);
      }
      return Ok(false);
    }

    method DeallocateSeat(seat: int) returns (r: Result<bool>)
      modifies seats
      ensures (r, seats[..]) == DeallocateIn(old(seats[..]), seat)
    {
      if !(0 <= seat < seats.Length) {
        return Err(IndexOutOfBounds);
      }
      seats[seat] := None;
      return Ok(seats[seat].None?);
    }

    /** `saveTravelStatus(printWriter)`: builds the status line slot by slot. */
    method SaveTravelStatus() returns (line: string)
      ensures line == StatusLine(record.id, seats[..])
    {
      line := record.id + ",";
      if seats.Length == 0 {
        return;
      }
      ghost var slots := seats[..];
      var i := 1;
      while i < seats.Length
        invariant 1 <= i <= seats.Length
        invariant line == record.id + "," + Terminated(Entries(slots, i))
      {
        StatusLineStep(record.id, slots, i);
        if seats[i].Some? {
          line := line + (Entry(i, seats[i].value) + ",");
        }
        i := i + 1;
      }
    }
  }

  /** `new Travel(line)`: the parsed record and an empty table of `seatsNumber + 1` slots. */
  method NewTravel(line: string) returns (r: Result<Travel>)
    ensures r.Err? ==> ParseTravel(line) == Err(r.exc)
    ensures r.Ok? ==> ParseTravel(line) == Ok((r.value.record, r.value.seatsNumber))
    ensures r.Ok? ==> fresh(r.value.seats) && r.value.Valid()
    ensures r.Ok? ==> forall i :: 0 <= i < r.value.seats.Length ==> r.value.seats[i].None?
  {
    var parsed := ParseTravel(line);
    if parsed.Err? {
      return Err(parsed.exc);
    }
    var t := new Travel(parsed.value.0, parsed.value.1);
    r := Ok(t);
  }
}

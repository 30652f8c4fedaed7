/**
 * The desktop application's travel: a record read from one separated line
 * and a table of seat slots, each empty or holding a seat-passenger Pair.
 * The record functions take the separator as a parameter: this travel uses
 * `,` and the default-package copy uses `;`.
 */
module ModelTravel {
  import opened Outcomes
  import opened Text
  import ST = ServerTravel
  import opened ModelPair

  /** What the line constructor reads: no info field, and the date as five ints. */
  datatype Record = Record(id: string, origin: string, destiny: string, date: ST.Date, distribution: string)

  /** `tokens[k]`: an index past the end is an ArrayIndexOutOfBoundsException. */
  function Token(tokens: seq<string>, k: nat): (r: Result<string>)
    ensures r.Ok? <==> k < |tokens|
    ensures r.Ok? ==> r.value == tokens[k]
    ensures r.Err? ==> r.exc == IndexOutOfBounds
  {
    if k < |tokens| then Ok(tokens[k]) else Err(IndexOutOfBounds)
  }

  /** `Integer.parseInt(tokens[k])`: the index is taken first, then the text is parsed. */
  function IntToken(tokens: seq<string>, k: nat): (r: Result<int>)
    ensures r.Err? ==> r.exc == IndexOutOfBounds || r.exc == NumberFormat
    ensures k < |tokens| && ParseInt(tokens[k]).Ok? ==> r == ParseInt(tokens[k])
  {
    var text :- Token(tokens, k);
    ParseInt(text)
  }

  /**
   * The line constructor: split on `d`; id, origin and destiny are elements
   * 0 to 2, the calendar is built from elements 3 to 7 read as year, month,
   * day, hour and minute, and the distribution is element 8.
   */
  function ParseRecord(line: string, d: char): (r: Result<Record>)
    ensures r.Err? ==> r.exc == IndexOutOfBounds || r.exc == NumberFormat
  {
    var tokens := Split(line, d);
    var id :- Token(tokens, 0);
    var origin :- Token(tokens, 1);
    var destiny :- Token(tokens, 2);
    var year :- IntToken(tokens, 3);
    var month :- IntToken(tokens, 4);
    var day :- IntToken(tokens, 5);
    var hour :- IntToken(tokens, 6);
    var minute :- IntToken(tokens, 7);
    var distribution :- Token(tokens, 8);
    Ok(Record(id, origin, destiny, ST.Date(day, month, year, hour, minute), distribution))
  }

  /**
   * `seatsNumber`: the distribution split on `x`, its first two elements
   * parsed and multiplied in 32-bit int arithmetic.
   */
  function SeatsNumber(distribution: string): (r: Result<int>)
    ensures r.Ok? ==> InInt32(r.value)
    ensures r.Err? ==> r.exc == IndexOutOfBounds || r.exc == NumberFormat
  {
    var parts := Split(distribution, 'x');
    var columns :- IntToken(parts, 0);
    var rows :- IntToken(parts, 1);
    Ok(Wrap32(columns * rows))
  }

  /** The seat count, checked against the allocation of `seatsNumber + 1` slots. */
  function SizeTable(distribution: string): (r: Result<int>)
    ensures r.Ok? ==> SeatsNumber(distribution) == r && 0 <= r.value + 1 <= MaxInt32
    ensures r.Err? ==> r.exc == NegativeArraySize || SeatsNumber(distribution) == r
  {
    var seatsNumber :- SeatsNumber(distribution);
    Wrap32Successor(seatsNumber);
    if Wrap32(seatsNumber + 1) < 0 then Err(NegativeArraySize) else Ok(seatsNumber)
  }

  /** `new Travel(line)` without the allocation: the record and its seat count. */
  function ParseTravel(line: string, d: char): Result<(Record, int)> {
    match ParseRecord(line, d)
    case Err(e) => Err(e)
    case Ok(record) =>
      match SizeTable(record.distribution)
      case Err(e) => Err(e)
      case Ok(n) => Ok((record, n))
  }

  /** A distribution written as `columns x rows` gives `columns * rows` seats when the product is an int. */
  lemma SeatsNumberOfDistribution(columns: int, rows: int)
    requires InInt32(columns) && InInt32(rows) && InInt32(columns * rows)
    ensures SeatsNumber(IntToString(columns) + "x" + IntToString(rows)) == Ok(columns * rows)
  {
    var fs := [IntToString(columns), IntToString(rows)];
    IntToStringFree(columns, 'x');
    IntToStringFree(rows, 'x');
    assert fs[1..] == [IntToString(rows)];
    assert Join(fs, 'x') == IntToString(columns) + "x" + IntToString(rows);
    SplitOfJoin(fs, 'x');
    ParseIntOfIntToString(columns);
    ParseIntOfIntToString(rows);
  }

  /** A character that never occurs in a written int. */
  predicate NotInNumbers(d: char) {
    !IsDigit(d) && d != '-'
  }

  lemma IntToStringFree(i: int, d: char)
    requires NotInNumbers(d)
    ensures d !in IntToString(i)
  {
    var s := IntToString(i);
    forall k | 0 <= k < |s|
      ensures s[k] != d
    {
      if i < 0 && k > 0 {
        assert s[k] == NatToString(-i)[k - 1];
      }
    }
  }

  /** The nine fields `save` writes: the date as year, month, day, hour, minute, then the distribution. */
  function SaveFields(r: Record): seq<string> {
    [r.id, r.origin, r.destiny,
     IntToString(r.date.year), IntToString(r.date.month), IntToString(r.date.day),
     IntToString(r.date.hour), IntToString(r.date.minute),
     r.distribution]
  }

  /** The line `save` prints. */
  function SaveLine(r: Record, d: char): string {
    Join(SaveFields(r), d)
  }

  /** `toString()`: eight fields, the date as day, month, year, hour, minute, and no distribution. */
  function ToStringLine(r: Record, d: char): string {
    Join([r.id, r.origin, r.destiny,
          IntToString(r.date.day), IntToString(r.date.month), IntToString(r.date.year),
          IntToString(r.date.hour), IntToString(r.date.minute)], d)
  }

  /**
   * A record whose saved line reads back: the text fields hold no
   * separator, the distribution (the last field) is not empty, and the
   * date parts are ints.
   */
  predicate Savable(r: Record, d: char) {
    NotInNumbers(d) &&
    d !in r.id && d !in r.origin && d !in r.destiny && d !in r.distribution && r.distribution != "" &&
    InInt32(r.date.day) && InInt32(r.date.month) && InInt32(r.date.year) &&
    InInt32(r.date.hour) && InInt32(r.date.minute)
  }

  lemma SaveFieldsFree(r: Record, d: char)
    requires Savable(r, d)
    ensures SeparatorFree(SaveFields(r), d)
  {
    IntToStringFree(r.date.year, d);
    IntToStringFree(r.date.month, d);
    IntToStringFree(r.date.day, d);
    IntToStringFree(r.date.hour, d);
    IntToStringFree(r.date.minute, d);
  }

  /** Parsing the line `save` writes gives the record back. */
  lemma ParseSaveLine(r: Record, d: char)
    requires Savable(r, d)
    ensures ParseRecord(SaveLine(r, d), d) == Ok(r)
  {
    SaveFieldsFree(r, d);
    SplitOfJoin(SaveFields(r), d);
    ParseIntOfIntToString(r.date.year);
    ParseIntOfIntToString(r.date.month);
    ParseIntOfIntToString(r.date.day);
    ParseIntOfIntToString(r.date.hour);
    ParseIntOfIntToString(r.date.minute);
  }

  /**
   * The `toString()` line is no travel line: it has eight fields, so the
   * constructor fails on element 8 after reading its date fields.
   */
  lemma ParseToStringLineFails(r: Record, d: char)
    requires Savable(r, d)
    ensures ParseRecord(ToStringLine(r, d), d) == Err(IndexOutOfBounds)
  {
    var fs := [r.id, r.origin, r.destiny,
               IntToString(r.date.day), IntToString(r.date.month), IntToString(r.date.year),
               IntToString(r.date.hour), IntToString(r.date.minute)];
    IntToStringFree(r.date.year, d);
    IntToStringFree(r.date.month, d);
    IntToStringFree(r.date.day, d);
    IntToStringFree(r.date.hour, d);
    IntToStringFree(r.date.minute, d);
    assert SeparatorFree(fs, d);
    SplitOfJoin(fs, d);
    ParseIntOfIntToString(r.date.year);
    ParseIntOfIntToString(r.date.month);
    ParseIntOfIntToString(r.date.day);
    ParseIntOfIntToString(r.date.hour);
    ParseIntOfIntToString(r.date.minute);
  }

  /** `equals`: two travels are equal exactly when their ids are. */
  predicate Equals(a: Record, b: Record) {
    a.id == b.id
  }

  // ---------------------------------------------------------------------------
  // The seat table, as the sequence of the DNIs in its slots

  /** `unassignSeat(seat)`: empties the slot, whatever it held. */
  function UnassignIn(slots: seq<Option<string>>, seat: int): (r: (Result<()>, seq<Option<string>>))
    ensures r.0.Ok? <==> 0 <= seat < |slots|
    ensures r.0.Err? ==> r.0.exc == IndexOutOfBounds && r.1 == slots
  {
    if 0 <= seat < |slots| then (Ok(()), slots[seat := None]) else (Err(IndexOutOfBounds), slots)
  }

  /** After `unassignSeat` a seat within the count is free and nobody sits on it; no other slot changes. */
  lemma UnassignFrees(slots: seq<Option<string>>, seatsNumber: int, seat: int)
    requires ST.TableOf(slots, seatsNumber) && 0 <= seat <= seatsNumber
    ensures var (r, after) := UnassignIn(slots, seat);
      r.Ok? && ST.IsSeatFreeIn(after, seatsNumber, seat) == Ok(true) &&
      ST.WhoIsSitedIn(after, seatsNumber, seat) == Ok(None) &&
      |after| == |slots| && forall i :: 0 <= i < |slots| && i != seat ==> after[i] == slots[i]
  {
  }

  /** Unassigning right after a successful assignment restores the table. */
  lemma UnassignUndoesAssign(slots: seq<Option<string>>, seat: int, passengerID: string)
    requires ST.AssignIn(slots, seat, passengerID).0 == Ok(true)
    ensures UnassignIn(ST.AssignIn(slots, seat, passengerID).1, seat) == (Ok(()), slots)
  {
    assert slots[seat := Some(passengerID)][seat := None] == slots;
  }

  // ---------------------------------------------------------------------------
  // The status line

  /** The elements, each followed by the separator. */
  function TerminatedBy(es: seq<string>, d: char): string {
    if |es| == 0 then "" else TerminatedBy(es[..|es| - 1], d) + es[|es| - 1] + [d]
  }

  /** The line `saveTravelStatus` prints: the id, then `seat-dni` for each occupied slot from 1 up, each followed by `d`. */
  function StatusLineBy(id: string, slots: seq<Option<string>>, d: char): string {
    id + [d] + TerminatedBy(ST.Entries(slots, |slots|), d)
  }

  /** With `,` as separator the status line is the one the server's travel writes. */
  lemma {:induction false} TerminatedByComma(es: seq<string>)
    ensures TerminatedBy(es, ',') == ST.Terminated(es)
    decreases |es|
  {
    if |es| > 0 {
      TerminatedByComma(es[..|es| - 1]);
    }
  }

  lemma StatusLineByComma(id: string, slots: seq<Option<string>>)
    ensures StatusLineBy(id, slots, ',') == ST.StatusLine(id, slots)
  {
    TerminatedByComma(ST.Entries(slots, |slots|));
  }

  /** Slot i adds its element and a separator to the status line built from the slots before it. */
  lemma StatusStep(id: string, slots: seq<Option<string>>, i: nat, d: char)
    requires 1 <= i < |slots|
    ensures id + [d] + TerminatedBy(ST.Entries(slots, i + 1), d) ==
      id + [d] + TerminatedBy(ST.Entries(slots, i), d) + (if slots[i].Some? then ST.Entry(i, slots[i].value) + [d] else "")
  {
    var before := ST.Entries(slots, i);
    if slots[i].Some? {
      var e := ST.Entry(i, slots[i].value);
      assert ST.Entries(slots, i + 1) == before + [e];
      assert (before + [e])[..|before|] == before;
      ConcatAssoc(TerminatedBy(before, d), e, [d]);
      ConcatAssoc(id + [d], TerminatedBy(before, d), e + [d]);
    } else {
      assert ST.Entries(slots, i + 1) == before + [];
      assert before + [] == before;
    }
  }

  class Travel {
    const record: Record
    const seatsNumber: int
    const seats: array<Pair?>

    /** The pairs in the table. */
    ghost function Occupants(): set<Pair?>
      reads seats
    {
      set i | 0 <= i < seats.Length && seats[i] != null :: seats[i]
    }

    /** The table as the DNI in each slot. */
    ghost function View(): (v: seq<Option<string>>)
      reads seats, Occupants()
      ensures |v| == seats.Length
      ensures forall i :: 0 <= i < seats.Length ==> v[i].None? == (seats[i] == null)
    {
      seq(seats.Length, i reads seats, Occupants() requires 0 <= i < seats.Length =>
        if seats[i] == null then None else Some(seats[i].passengerID))
    }

    /** The table has the allocated size, and each pair records the seat it sits in. */
    ghost predicate Valid()
      reads seats, Occupants()
    {
      seats.Length == seatsNumber + 1 &&
      forall i :: 0 <= i < seats.Length && seats[i] != null ==> seats[i].seat == i
    }

    /** Every slot of the table is empty. */
    ghost predicate Empty()
      reads seats
    {
      forall i :: 0 <= i < seats.Length ==> seats[i] == null
    }

    /** The table as the constructor leaves it: the allocated size, every slot empty. */
    ghost predicate Blank()
      reads seats
    {
      seats.Length == seatsNumber + 1 && Empty()
    }

    /** The allocation part of the constructor: every slot empty. */
    constructor (record: Record, seatsNumber: int)
      requires 0 <= seatsNumber + 1
      ensures this.record == record && this.seatsNumber == seatsNumber && Valid()
      ensures fresh(seats) && forall i :: 0 <= i < seats.Length ==> seats[i] == null
    {
      this.record := record;
      this.seatsNumber := seatsNumber;
      seats := new Pair?[seatsNumber + 1](_ => null);
    }

    function IsSeatFree(seat: int): (r: Result<bool>)
      reads seats, Occupants()
      ensures r == ST.IsSeatFreeIn(View(), seatsNumber, seat)
    {
      if seat <= seatsNumber then
        if 0 <= seat < seats.Length then Ok(seats[seat] == null) else Err(IndexOutOfBounds)
      else Ok(false)
    }

    /**
     * `whoIsSited(seat)`: the DNI of the pair in an occupied slot.  An empty
     * slot above the seat count would be dereferenced (NullPointerException),
     * but the table has no such slot.
     */
    function WhoIsSited(seat: int): (r: Result<Option<string>>)
      reads seats, Occupants()
      ensures Valid() ==> r == ST.WhoIsSitedIn(View(), seatsNumber, seat)
    {
      match IsSeatFree(seat)
      case Err(e) => Err(e)
      case Ok(free) =>
        if free then Ok(None)
        else if !(0 <= seat < seats.Length) then Err(IndexOutOfBounds)
        else if seats[seat] == null then Err(NullPointer)
        else Ok(Some(seats[seat].GetPassengerID()))
    }

    method AssignSeat(seat: int, passengerID: string) returns (r: Result<bool>)
      requires Valid()
      modifies seats
      ensures Valid()
      ensures (r, View()) == ST.AssignIn(old(View()), seat, passengerID)
    {
      if !(0 <= seat < seats.Length) {
        return Err(IndexOutOfBounds);
      }
      if seats[seat] == null {
        ghost var before := View();
        var pair := new Pair(seat, passengerID);
        seats[seat] := pair;
        assert View() == before[seat := Some(passengerID)];
        return Ok(true);
      }
      return Ok(false);
    }

    method UnassignSeat(seat: int) returns (r: Result<()>)
      requires Valid()
      modifies seats
      ensures Valid()
      ensures (r, View()) == UnassignIn(old(View()), seat)
    {
      if !(0 <= seat < seats.Length) {
        return Err(IndexOutOfBounds);
      }
      ghost var before := View();
      seats[seat] := null;
      assert View() == before[seat := None];
      return Ok(());
    }

    /** `save(printWriter)`: the one line printed. */
    function SaveLines(): (lines: seq<string>)
      ensures |lines| == 1
      ensures Savable(record, ',') ==> ParseRecord(lines[0], ',') == Ok(record)
    {
      assert Savable(record, ',') ==> ParseRecord(SaveLine(record, ','), ',') == Ok(record) by {
        if Savable(record, ',') {
          ParseSaveLine(record, ',');
        }
      }
      [SaveLine(record, ',')]
    }

    function ToString(): string {
      ToStringLine(record, ',')
    }

    /** `saveTravelStatus(printWriter)`: builds the status line slot by slot, reading each pair's seat and DNI. */
    method SaveTravelStatus() returns (line: string)
      requires Valid()
      ensures line == StatusLineBy(record.id, View(), ',')
    {
      line := record.id + ",";
      ghost var slots := View();
      if seats.Length == 0 {
        assert ST.Entries(slots, |slots|) == [];
        return;
      }
      var i := 1;
      while i < seats.Length
        invariant 1 <= i <= seats.Length
        invariant line == record.id + [','] + TerminatedBy(ST.Entries(slots, i), ',')
      {
        StatusStep(record.id, slots, i, ',');
        if seats[i] != null {
          line := line + (IntToString(seats[i].GetSeat()) + "-" + seats[i].GetPassengerID() + ",");
        }
        i := i + 1;
      }
      assert slots == View();
    }
  }

  /** `new Travel(line)`: the parsed record and an empty table of `seatsNumber + 1` slots. */
  method NewTravel(line: string) returns (r: Result<Travel>)
    ensures r.Err? ==> ParseTravel(line, ',') == Err(r.exc)
    ensures r.Ok? ==> ParseTravel(line, ',') == Ok((r.value.record, r.value.seatsNumber))
    ensures r.Ok? ==> fresh(r.value.seats) && r.value.Valid()
    ensures r.Ok? ==> forall i :: 0 <= i < r.value.seats.Length ==> r.value.seats[i] == null
  {
    var parsed := ParseTravel(line, ',');
    if parsed.Err? {
      return Err(parsed.exc);
    }
    var t := new Travel(parsed.value.0, parsed.value.1);
    r := Ok(t);
  }
}

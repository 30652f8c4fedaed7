/**
 * The default-package travel: the same record and seat table as the
 * desktop travel, with `;` separating the fields of its lines.
 */
module LegacyTravel {
  import opened Outcomes
  import opened Text
  import ST = ServerTravel
  import opened ModelTravel
  import opened LegacyPair

  class Travel {
    const record: Record
    const seatsNumber: int
    const seats: array<Pair?>

    /** The pairs in the table. */
    ghost function Occupants(): set<Pair?>
      reads seats
    {
      set i | 0 <= i < seats.Length && seats[i] != null :: seats[i]
    }

    /** The table as the DNI in each slot. */
    ghost function View(): (v: seq<Option<string>>)
      reads seats, Occupants()
      ensures |v| == seats.Length
      ensures forall i :: 0 <= i < seats.Length ==> v[i].None? == (seats[i] == null)
    {
      seq(seats.Length, i reads seats, Occupants() requires 0 <= i < seats.Length =>
        if seats[i] == null then None else Some(seats[i].passengerID))
    }

    /** The table has the allocated size, and each pair records the seat it sits in. */
    ghost predicate Valid()
      reads seats, Occupants()
    {
      seats.Length == seatsNumber + 1 &&
      forall i :: 0 <= i < seats.Length && seats[i] != null ==> seats[i].seat == i
    }

    /** The allocation part of the constructor: every slot empty. */
    constructor (record: Record, seatsNumber: int)
      requires 0 <= seatsNumber + 1
      ensures this.record == record && this.seatsNumber == seatsNumber && Valid()
      ensures fresh(seats) && forall i :: 0 <= i < seats.Length ==> seats[i] == null
    {
      this.record := record;
      this.seatsNumber := seatsNumber;
      seats := new Pair?[seatsNumber + 1](_ => null);
    }

    function IsSeatFree(seat: int): (r: Result<bool>)
      reads seats, Occupants()
      ensures r == ST.IsSeatFreeIn(View(), seatsNumber, seat)
    {
      if seat <= seatsNumber then
        if 0 <= seat < seats.Length then Ok(seats[seat] == null) else Err(IndexOutOfBounds)
      else Ok(false)
    }

    /**
     * `whoIsSited(seat)`: the DNI of the pair in an occupied slot.  An empty
     * slot above the seat count would be dereferenced (NullPointerException),
     * but the table has no such slot.
     */
    function WhoIsSited(seat: int): (r: Result<Option<string>>)
      reads seats, Occupants()
      ensures Valid() ==> r == ST.WhoIsSitedIn(View(), seatsNumber, seat)
    {
      match IsSeatFree(seat)
      case Err(e) => Err(e)
      case Ok(free) =>
        if free then Ok(None)
        else if !(0 <= seat < seats.Length) then Err(IndexOutOfBounds)
        else if seats[seat] == null then Err(NullPointer)
        else Ok(Some(seats[seat].GetPassengerID()))
    }

    method AssignSeat(seat: int, passengerID: string) returns (r: Result<bool>)
      requires Valid()
      modifies seats
      ensures Valid()
      ensures (r, View()) == ST.AssignIn(old(View()), seat, passengerID)
    {
      if !(0 <= seat < seats.Length) {
        return Err(IndexOutOfBounds);
      }
      if seats[seat] == null {
        ghost var before := View();
        var pair := new Pair(seat, passengerID);
        seats[seat] := pair;
        assert View() == before[seat := Some(passengerID)];
        return Ok(true);
      }
      return Ok(false);
    }

    method UnassignSeat(seat: int) returns (r: Result<()>)
      requires Valid()
      modifies seats
      ensures Valid()
      ensures (r, View()) == UnassignIn(old(View()), seat)
    {
      if !(0 <= seat < seats.Length) {
        return Err(IndexOutOfBounds);
      }
      ghost var before := View();
      seats[seat] := null;
      assert View() == before[seat := None];
      return Ok(());
    }

    /** `save(printWriter)`: the one line printed. */
    function SaveLines(): (lines: seq<string>)
      ensures |lines| == 1
      ensures Savable(record, ';') ==> ParseRecord(lines[0], ';') == Ok(record)
    {
      assert Savable(record, ';') ==> ParseRecord(SaveLine(record, ';'), ';') == Ok(record) by {
        if Savable(record, ';') {
          ParseSaveLine(record, ';');
        }
      }
      [SaveLine(record, ';')]
    }

    function ToString(): string {
      ToStringLine(record, ';')
    }

    /** `saveTravelStatus(printWriter)`: builds the status line slot by slot, reading each pair's seat and DNI. */
    method SaveTravelStatus() returns (line: string)
      requires Valid()
      ensures line == StatusLineBy(record.id, View(), ';')
    {
      line := record.id + ";";
      ghost var slots := View();
      if seats.Length == 0 {
        assert ST.Entries(slots, |slots|) == [];
        return;
      }
      var i := 1;
      while i < seats.Length
        invariant 1 <= i <= seats.Length
        invariant line == record.id + [';'] + TerminatedBy(ST.Entries(slots, i), ';')
      {
        StatusStep(record.id, slots, i, ';');
        if seats[i] != null {
          line := line + (IntToString(seats[i].GetSeat()) + "-" + seats[i].GetPassengerID() + ";");
        }
        i := i + 1;
      }
      assert slots == View();
    }
  }

  /** `new Travel(line)`: the parsed record and an empty table of `seatsNumber + 1` slots. */
  method NewTravel(line: string) returns (r: Result<Travel>)
    ensures r.Err? ==> ParseTravel(line, ';') == Err(r.exc)
    ensures r.Ok? ==> ParseTravel(line, ';') == Ok((r.value.record, r.value.seatsNumber))
    ensures r.Ok? ==> fresh(r.value.seats) && r.value.Valid()
    ensures r.Ok? ==> forall i :: 0 <= i < r.value.seats.Length ==> r.value.seats[i] == null
  {
    var parsed := ParseTravel(line, ';');
    if parsed.Err? {
      return Err(parsed.exc);
    }
    var t := new Travel(parsed.value.0, parsed.value.1);
    r := Ok(t);
  }
}

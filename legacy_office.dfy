/**
 * The default-package office: passengers and travels kept in two arrays of
 * fixed capacity, each with the index of its last used slot (`-1` when
 * empty).  Deletion moves the last element into the freed slot.
 */
module LegacyOffice {
  import opened Outcomes
  import opened Text
  import opened ServerPassenger
  import ST = ServerTravel
  import SSD = ServerSalesDesk
  import MO = ModelOffice
  import LT = LegacyTravel
  import opened ModelTravel

  const MaxPassengers := 1000
  const MaxTravels := 1000

  // ---------------------------------------------------------------------------
  // The stores as sequences

  /** Deletion by swapping: the last element takes the place of element `k`, and the last place goes. */
  function SwapRemove<T>(s: seq<T>, k: nat): (r: seq<T>)
    requires k < |s|
    ensures |r| == |s| - 1
  {
    s[k := s[|s| - 1]][..|s| - 1]
  }

  /** Deleting by swapping takes exactly one copy of the deleted element out of the store, and nothing else. */
  lemma SwapRemoveMultiset<T>(s: seq<T>, k: nat)
    requires k < |s|
    ensures multiset(SwapRemove(s, k)) == multiset(s) - multiset{s[k]}
  {
    var last := |s| - 1;
    if k == last {
      assert s == s[..last] + [s[last]];
      assert SwapRemove(s, k) == s[..last];
    } else {
      assert s == s[..k] + [s[k]] + s[k + 1..last] + [s[last]];
      assert SwapRemove(s, k) == s[..k] + [s[last]] + s[k + 1..last];
    }
  }

  /** The position of the first travel with the id, or -1. */
  function TravelIndex(ts: seq<LT.Travel>, id: string): (k: int)
    ensures -1 <= k < |ts|
    ensures k >= 0 ==> ts[k].record.id == id && forall i :: 0 <= i < k ==> ts[i].record.id != id
    ensures k < 0 ==> forall i :: 0 <= i < |ts| ==> ts[i].record.id != id
  {
    if |ts| == 0 then -1
    else if ts[0].record.id == id then 0
    else var k := TravelIndex(ts[1..], id); if k < 0 then -1 else k + 1
  }

  /** The `toString()` lines of the travels, in array order. */
  function TravelLines(ts: seq<LT.Travel>): (lines: seq<string>)
    ensures |lines| == |ts| && forall i :: 0 <= i < |ts| ==> lines[i] == ts[i].ToString()
  {
    seq(|ts|, i requires 0 <= i < |ts| => ts[i].ToString())
  }

  // ---------------------------------------------------------------------------
  // The office

  class Office {
    const passengers: array<Option<Passenger>>
    var indexPassengers: int
    const travels: array<LT.Travel?>
    var indexTravels: int

    /** Slots 0 to `indexPassengers` hold passengers and every slot above is null. */
    ghost predicate PassengersPacked()
      reads this`indexPassengers, passengers
    {
      passengers.Length == MaxPassengers && -1 <= indexPassengers < passengers.Length &&
      forall i :: 0 <= i < passengers.Length ==> (passengers[i].Some? <==> i <= indexPassengers)
    }

    /** Slots 0 to `indexTravels` hold travels and every slot above is null. */
    ghost predicate TravelsPacked()
      reads this`indexTravels, travels
    {
      travels.Length == MaxTravels && -1 <= indexTravels < travels.Length &&
      forall i :: 0 <= i < travels.Length ==> (travels[i] != null <==> i <= indexTravels)
    }

    /** The stored passengers, in slot order. */
    ghost function Passengers(): (ps: seq<Passenger>)
      requires PassengersPacked()
      reads this`indexPassengers, passengers
      ensures |ps| == indexPassengers + 1
      ensures forall i :: 0 <= i < |ps| ==> passengers[i] == Some(ps[i])
    {
      var n := indexPassengers + 1;
      seq(n, i reads passengers requires 0 <= i < passengers.Length && passengers[i].Some? => passengers[i].value)
    }

    /** The stored travels, in slot order. */
    ghost function Travels(): (ts: seq<LT.Travel>)
      requires TravelsPacked()
      reads this`indexTravels, travels
      ensures |ts| == indexTravels + 1
      ensures forall i :: 0 <= i < |ts| ==> travels[i] == ts[i]
    {
      var n := indexTravels + 1;
      seq(n, i reads travels requires 0 <= i < travels.Length && travels[i] != null => travels[i])
    }

    /** The seat tables of the stored travels. */
    ghost function Tables(): set<object>
      reads this`indexTravels, travels
    {
      set i | 0 <= i <= indexTravels && i < travels.Length && travels[i] != null :: travels[i].seats
    }

    /** The pairs in those tables. */
    ghost function Pairs(): set<object>
      reads this`indexTravels, travels, Tables()
    {
      set i, p | 0 <= i <= indexTravels && i < travels.Length && travels[i] != null && p in travels[i].Occupants() :: p
    }

    /** Every stored travel has its own table, in the shape its constructor gave it. */
    ghost predicate TablesValid()
      requires TravelsPacked()
      reads this`indexTravels, travels, Tables(), Pairs()
    {
      (forall i :: 0 <= i <= indexTravels ==> travels[i].Valid()) &&
      (forall i, j :: 0 <= i < j <= indexTravels ==> travels[i].seats != travels[j].seats)
    }

    /** Both arrays packed, and the tables of the stored travels valid. */
    ghost predicate Valid()
      reads this, passengers, travels, Tables(), Pairs()
    {
      PassengersPacked() && TravelsPacked() && TablesValid()
    }

    /** The tables of the stored travels, in slot order. */
    ghost function Views(): (vs: seq<seq<Option<string>>>)
      requires TravelsPacked()
      reads this`indexTravels, travels, Tables(), Pairs()
      ensures |vs| == indexTravels + 1
      ensures forall i :: 0 <= i < |vs| ==> vs[i] == travels[i].View()
    {
      var n, tables, pairs := indexTravels + 1, Tables(), Pairs();
      seq(n, i reads travels, tables, pairs
        requires 0 <= i < n && i < travels.Length && travels[i] != null
        requires travels[i].seats in tables && travels[i].Occupants() <= pairs =>
        travels[i].View())
    }

    /** The ids of the stored travels, in slot order. */
    ghost function Ids(): (ids: seq<string>)
      requires TravelsPacked()
      reads this`indexTravels, travels
      ensures |ids| == indexTravels + 1
      ensures forall i :: 0 <= i < |ids| ==> ids[i] == travels[i].record.id
    {
      var n := indexTravels + 1;
      seq(n, i reads travels requires 0 <= i < travels.Length && travels[i] != null => travels[i].record.id)
    }

    /** `new Office()`: two empty arrays of the fixed capacity, both indexes at -1. */
    constructor ()
      ensures Valid() && Passengers() == [] && Travels() == []
      ensures fresh(passengers) && fresh(travels)
    {
      passengers := new Option<Passenger>[MaxPassengers](_ => None);
      indexPassengers := -1;
      travels := new LT.Travel?[MaxTravels](_ => null);
      indexTravels := -1;
    }

    /** `searchPassenger(dni)`: scans slots 0 to `indexPassengers` and returns the first passenger with the DNI. */
    method SearchPassenger(dni: string) returns (r: Option<Passenger>)
      requires PassengersPacked()
      ensures r == SSD.FindPassenger(Passengers(), dni)
    {
      ghost var ps := Passengers();
      var i := 0;
      while i <= indexPassengers
        invariant 0 <= i <= indexPassengers + 1
        invariant SSD.FindPassenger(ps, dni) == SSD.FindPassenger(ps[i..], dni)
      {
        if passengers[i].value.dni == dni {
          return passengers[i];
        }
        assert ps[i..][1..] == ps[i + 1..];
        i := i + 1;
      }
      return None;
    }

    /** The loop of `searchTravel`, `deleteTravel` and `modifyTravel`: the slot of the first travel with the id, or the first empty slot. */
    method TravelSlot(id: string) returns (i: int)
      requires TravelsPacked()
      ensures i == var k := TravelIndex(Travels(), id); if k < 0 then indexTravels + 1 else k
    {
      i := 0;
      while i <= indexTravels && travels[i].record.id != id
        invariant 0 <= i <= indexTravels + 1
        invariant forall j :: 0 <= j < i ==> travels[j].record.id != id
      {
        i := i + 1;
      }
    }

    /** The loop of `deletePassenger` and `modifyPassenger`: the slot of the first passenger with the DNI, or the first empty slot. */
    method PassengerSlot(dni: string) returns (i: int)
      requires PassengersPacked()
      ensures i == var k := MO.PassengerIndex(Passengers(), dni); if k < 0 then indexPassengers + 1 else k
    {
      i := 0;
      while i <= indexPassengers && passengers[i].value.dni != dni
        invariant 0 <= i <= indexPassengers + 1
        invariant forall j :: 0 <= j < i ==> passengers[j].value.dni != dni
      {
        i := i + 1;
      }
    }

    /** `searchTravel(id)`: scans slots 0 to `indexTravels` and returns the first travel with the id. */
    method SearchTravel(id: string) returns (r: LT.Travel?)
      requires TravelsPacked()
      ensures var k := TravelIndex(Travels(), id); r == if k < 0 then null else Travels()[k]
    {
      var i := TravelSlot(id);
      if i <= indexTravels {
        return travels[i];
      }
      return null;
    }

    /**
     * `addPassenger` as the class has it: the guard `indexPassengers <
     * MAX_PASSENGERS` still holds when the array is full, so a new DNI then
     * writes one slot past the end.
     */
    method AddPassengerAsWritten(p: Passenger) returns (r: Result<bool>)
      requires Valid()
      modifies this`indexPassengers, passengers
      ensures Valid()
      ensures r == if SSD.FindPassenger(old(Passengers()), p.dni).Some? then Ok(false)
                   else if old(indexPassengers) + 1 < MaxPassengers then Ok(true)
                   else Err(IndexOutOfBounds)
      ensures Passengers() == if r == Ok(true) then old(Passengers()) + [p] else old(Passengers())
    {
      if indexPassengers < MaxPassengers {
        var found := SearchPassenger(p.dni);
        if found.None? {
          if indexPassengers + 1 >= passengers.Length {
            return Err(IndexOutOfBounds);
          }
          PutPassenger(p);
          return Ok(true);
        }
      }
      return Ok(false);
    }

    /** `addPassenger` with the capacity guard the class means: a new DNI is stored only while a slot is left. */
    method AddPassenger(p: Passenger) returns (r: bool)
      requires Valid()
      modifies this`indexPassengers, passengers
      ensures Valid()
      ensures r <==> SSD.FindPassenger(old(Passengers()), p.dni).None? && |old(Passengers())| < MaxPassengers
      ensures Passengers() == if r then old(Passengers()) + [p] else old(Passengers())
    {
      if indexPassengers + 1 < MaxPassengers {
        var found := SearchPassenger(p.dni);
        if found.None? {
          PutPassenger(p);
          return true;
        }
      }
      return false;
    }

    /**
     * `addTravel` as the class has it: the same guard as `addPassenger`, so
     * a new id on a full array writes one slot past the end.
     */
    method AddTravelAsWritten(t: LT.Travel) returns (r: Result<bool>)
      requires Valid() && t.Valid()
      requires forall u :: u in Travels() ==> u.seats != t.seats || u == t
      modifies this`indexTravels, travels
      ensures Valid()
      ensures r == if TravelIndex(old(Travels()), t.record.id) >= 0 then Ok(false)
                   else if old(indexTravels) + 1 < MaxTravels then Ok(true)
                   else Err(IndexOutOfBounds)
      ensures Travels() == if r == Ok(true) then old(Travels()) + [t] else old(Travels())
    {
      if indexTravels < MaxTravels {
        var found := SearchTravel(t.record.id);
        if found == null {
          if indexTravels + 1 >= travels.Length {
            return Err(IndexOutOfBounds);
          }
          PutTravel(t);
          return Ok(true);
        }
      }
      return Ok(false);
    }

    /** `addTravel` with the capacity guard the class means: a new id is stored only while a slot is left. */
    method AddTravel(t: LT.Travel) returns (r: bool)
      requires Valid() && t.Valid()
      requires forall u :: u in Travels() ==> u.seats != t.seats || u == t
      modifies this`indexTravels, travels
      ensures Valid()
      ensures r <==> TravelIndex(old(Travels()), t.record.id) < 0 && |old(Travels())| < MaxTravels
      ensures Travels() == if r then old(Travels()) + [t] else old(Travels())
    {
      if indexTravels + 1 < MaxTravels {
        var found := SearchTravel(t.record.id);
        if found == null {
          PutTravel(t);
          return true;
        }
      }
      return false;
    }

    /** The write of the add operations: slot `indexPassengers + 1` takes the passenger, and the index moves up. */
    method PutPassenger(p: Passenger)
      requires Valid() && indexPassengers + 1 < passengers.Length
      modifies this`indexPassengers, passengers
      ensures Valid() && Passengers() == old(Passengers()) + [p]
    {
      passengers[indexPassengers + 1] := Some(p);
      indexPassengers := indexPassengers + 1;
    }

    /** The write of the add operations: slot `indexTravels + 1` takes the travel, and the index moves up. */
    method PutTravel(t: LT.Travel)
      requires Valid() && t.Valid() && indexTravels + 1 < travels.Length
      requires forall u :: u in Travels() ==> u.seats != t.seats
      modifies this`indexTravels, travels
      ensures Valid() && Travels() == old(Travels()) + [t]
    {
      travels[indexTravels + 1] := t;
      indexTravels := indexTravels + 1;
    }

    /**
     * `deletePassenger(p)`: the first passenger equal to `p`, that is with
     * its DNI, is overwritten by the last one, whose slot is emptied.
     */
    method DeletePassenger(p: Passenger) returns (r: bool)
      requires Valid()
      modifies this`indexPassengers, passengers
      ensures Valid()
      ensures var k := MO.PassengerIndex(old(Passengers()), p.dni);
        (r <==> k >= 0) && Passengers() == if k < 0 then old(Passengers()) else SwapRemove(old(Passengers()), k)
    {
      var i := PassengerSlot(p.dni);
      if i > indexPassengers {
        return false;
      }
      RemovePassengerAt(i);
      return true;
    }

    /** The write of `deletePassenger`: the last passenger moves to slot `i`, and its own slot is emptied. */
    method RemovePassengerAt(i: int)
      requires Valid() && 0 <= i <= indexPassengers
      modifies this`indexPassengers, passengers
      ensures Valid() && Passengers() == SwapRemove(old(Passengers()), i)
    {
      ghost var ps := Passengers();
      passengers[i] := passengers[indexPassengers];
      passengers[indexPassengers] := None;
      indexPassengers := indexPassengers - 1;
      assert Passengers() == SwapRemove(ps, i);
    }

    /**
     * `deleteTravel(t)`: the first travel equal to `t`, that is with its id,
     * is overwritten by the last one, whose slot is emptied.
     */
    method DeleteTravel(t: LT.Travel) returns (r: bool)
      requires Valid()
      modifies this`indexTravels, travels
      ensures Valid()
      ensures var k := TravelIndex(old(Travels()), t.record.id);
        (r <==> k >= 0) && Travels() == if k < 0 then old(Travels()) else SwapRemove(old(Travels()), k)
    {
      var i := TravelSlot(t.record.id);
      if i > indexTravels {
        return false;
      }
      RemoveTravelAt(i);
      return true;
    }

    /** The write of `deleteTravel`: the last travel moves to slot `i`, and its own slot is emptied. */
    method RemoveTravelAt(i: int)
      requires Valid() && 0 <= i <= indexTravels
      modifies this`indexTravels, travels
      ensures Valid() && Travels() == SwapRemove(old(Travels()), i)
    {
      ghost var ts := Travels();
      travels[i] := travels[indexTravels];
      travels[indexTravels] := null;
      indexTravels := indexTravels - 1;
      assert Travels() == SwapRemove(ts, i);
    }

    /** `modifyPassenger(dni, updated)`: the first passenger with the DNI is replaced in its slot. */
    method ModifyPassenger(dni: string, updated: Passenger) returns (r: bool)
      requires Valid()
      modifies passengers
      ensures Valid()
      ensures var k := MO.PassengerIndex(old(Passengers()), dni);
        (r <==> k >= 0) && Passengers() == if k < 0 then old(Passengers()) else old(Passengers())[k := updated]
    {
      ghost var ps := Passengers();
      var i := PassengerSlot(dni);
      if i > indexPassengers {
        return false;
      }
      passengers[i] := Some(updated);
      assert Passengers() == ps[i := updated];
      return true;
    }

    /** `modifyTravel(id, updated)`: the first travel with the id is replaced in its slot. */
    method ModifyTravel(id: string, updated: LT.Travel) returns (r: bool)
      requires Valid() && updated.Valid()
      requires forall u :: u in Travels() ==> u.seats != updated.seats
      modifies travels
      ensures Valid()
      ensures var k := TravelIndex(old(Travels()), id);
        (r <==> k >= 0) && Travels() == if k < 0 then old(Travels()) else old(Travels())[k := updated]
    {
      ghost var ts := Travels();
      var i := TravelSlot(id);
      if i > indexTravels {
        return false;
      }
      travels[i] := updated;
      assert Travels() == ts[i := updated];
      return true;
    }

    /** `listPassengers()`: one `toString()` line and a newline per stored passenger, in slot order. */
    method ListPassengers() returns (s: string)
      requires PassengersPacked()
      ensures s == TerminatedBy(MO.PassengerLines(Passengers()), '\n')
    {
      ghost var ps := Passengers();
      s := "";
      var i := 0;
      while i <= indexPassengers
        invariant 0 <= i <= indexPassengers + 1
        invariant s == TerminatedBy(MO.PassengerLines(ps[..i]), '\n')
      {
        assert MO.PassengerLines(ps[..i + 1])[..i] == MO.PassengerLines(ps[..i]);
        s := s + ToString(passengers[i].value) + "\n";
        i := i + 1;
      }
      assert ps[..i] == ps;
    }

    /** `listTravels()`: one `toString()` line and a newline per stored travel, in slot order. */
    method ListTravels() returns (s: string)
      requires TravelsPacked()
      ensures s == TerminatedBy(TravelLines(Travels()), '\n')
    {
      ghost var ts := Travels();
      s := "";
      var i := 0;
      while i <= indexTravels
        invariant 0 <= i <= indexTravels + 1
        invariant s == TerminatedBy(TravelLines(ts[..i]), '\n')
      {
        assert TravelLines(ts[..i + 1])[..i] == TravelLines(ts[..i]);
        s := s + travels[i].ToString() + "\n";
        i := i + 1;
      }
      assert ts[..i] == ts;
    }

    /** `assignSeat(travel, passenger, seat)`: assigns only a seat `isSeatFree` reports free. */
    method AssignSeat(travel: LT.Travel, p: Passenger, seat: int) returns (r: Result<bool>)
      requires travel.Valid()
      modifies travel.seats
      ensures travel.Valid()
      ensures (r, travel.View()) == SSD.AssignSeatIn(old(travel.View()), travel.seatsNumber, seat, p.dni)
    {
      var free := travel.IsSeatFree(seat);
      if free.Err? {
        return Err(free.exc);
      }
      if free.value {
        r := travel.AssignSeat(seat, p.dni);
      } else {
        r := Ok(false);
      }
    }

    /** `unassignSeat(travel, seat)`: empties the seat, whatever it held. */
    method UnassignSeat(travel: LT.Travel, seat: int) returns (r: Result<()>)
      requires travel.Valid()
      modifies travel.seats
      ensures travel.Valid()
      ensures (r, travel.View()) == UnassignIn(old(travel.View()), seat)
    {
      r := travel.UnassignSeat(seat);
    }

    /** `whoIsSited(travel, seat)`: null for a free seat, otherwise the stored passenger with the seated DNI, or null. */
    method WhoIsSited(travel: LT.Travel, seat: int) returns (r: Result<Option<Passenger>>)
      requires PassengersPacked() && travel.Valid()
      ensures r == match ST.WhoIsSitedIn(travel.View(), travel.seatsNumber, seat)
        case Err(e) => Err(e)
        case Ok(dni) => if dni.None? then Ok(None) else Ok(SSD.FindPassenger(Passengers(), dni.value))
    {
      var dni := travel.WhoIsSited(seat);
      if dni.Err? {
        return Err(dni.exc);
      }
      if dni.value.None? {
        return Ok(None);
      }
      var found := SearchPassenger(dni.value.value);
      return Ok(found);
    }

    /** `seatsStatus(travel)`: the two parts of the distribution, then the plan. */
    method SeatsStatus(travel: LT.Travel) returns (r: Result<string>)
      requires travel.Valid()
      ensures r == MO.SeatsStatusOf(travel.record.distribution, travel.View(), travel.seatsNumber)
    {
      var parts := Split(travel.record.distribution, 'x');
      var perRow := IntToken(parts, 0);
      if perRow.Err? {
        return Err(perRow.exc);
      }
      var rows := IntToken(parts, 1);
      if rows.Err? {
        return Err(rows.exc);
      }
      var plan := DrawPlan(travel, perRow.value, rows.value);
      return Ok(plan);
    }

    /** The line offered to the travel in slot `i`: only that travel's table changes. */
    method ReadTravelAt(i: nat, tokens: seq<string>) returns (r: Result<()>)
      requires Valid() && i <= indexTravels
      modifies travels[i].seats
      ensures Valid()
      ensures (r, Views()[i]) == MO.ApplyToTravel(old(Views())[i], travels[i].record.id, tokens)
      ensures Views() == old(Views())[i := Views()[i]]
    {
      ghost var before := Views();
      var t := travels[i];
      label Before:
      r := ReadTravelTokens(t, tokens);
      forall j | 0 <= j <= indexTravels && j != i
        ensures travels[j].View() == before[j] && travels[j].Valid()
      {
        assert travels[j].seats != t.seats;
        assert old@Before(travels[j].Valid());
      }
      assert Views() == before[i := t.View()];
    }

    /** The loop over the travels for one split line: slots 0 to `count - 1`, in order; the first exception ends the reading. */
    method ReadStatusTokens(tokens: seq<string>, count: nat) returns (r: Result<()>)
      requires Valid() && count <= indexTravels + 1
      modifies Tables()
      ensures Valid()
      ensures (r, Views()) == MO.ApplyToTravels(old(Views()), Ids(), tokens, count)
    {
      ghost var v0 := Views();
      var j := 0;
      while j < count
        invariant 0 <= j <= count && Valid()
        invariant (Ok(()), Views()) == MO.ApplyToTravels(v0, Ids(), tokens, j)
      {
        ghost var cur := Views();
        r := ReadTravelAt(j, tokens);
        MO.ApplyToTravelsNext(v0, Ids(), tokens, count, j, cur, r, Views());
        if r.Err? {
          return;
        }
        j := j + 1;
      }
      r := Ok(());
    }

    /** The loop over the lines: each split on `;` and offered to the travels in slots 0 to `count - 1`. */
    method ReadStatusLines(lines: seq<string>, count: nat) returns (r: Result<()>)
      requires Valid() && count <= indexTravels + 1
      modifies Tables()
      ensures Valid()
      ensures (r, Views()) == MO.ApplyLines(old(Views()), Ids(), lines, ';', count, |lines|)
    {
      ghost var v0, ids := Views(), Ids();
      var n := 0;
      while n < |lines|
        invariant 0 <= n <= |lines| && Valid()
        invariant Ids() == ids && Tables() == old(Tables())
        invariant LinesRead(v0, ids, lines, count, n, Views())
      {
        r := ReadStatusLine(v0, lines, count, n);
        if r.Err? {
          return;
        }
        n := n + 1;
      }
      r := Ok(());
    }

    /** Line `n` offered to the travels, after the lines before it. */
    method ReadStatusLine(ghost v0: seq<seq<Option<string>>>, lines: seq<string>, count: nat, n: nat) returns (r: Result<()>)
      requires Valid() && n < |lines| && LinesRead(v0, Ids(), lines, count, n, Views())
      modifies Tables()
      ensures Valid()
      ensures r.Ok? ==> LinesRead(v0, Ids(), lines, count, n + 1, Views())
      ensures r.Err? ==> MO.ApplyLines(v0, Ids(), lines, ';', count, |lines|) == (r, Views())
    {
      ghost var cur := Views();
      r := ReadStatusTokens(Split(lines[n], ';'), count);
      MO.ApplyLinesNext(v0, Ids(), lines, ';', count, n, cur, r, Views());
    }

    /**
     * `readTravelsStatus(file)` as the class has it: the loop over the
     * travels stops at `j < indexTravels`, one short of the last stored one.
     */
    method ReadTravelsStatusAsWritten(lines: seq<string>) returns (r: Result<()>)
      requires Valid()
      modifies Tables()
      ensures Valid()
      ensures (r, Views()) == MO.ApplyLines(old(Views()), Ids(), lines, ';', if indexTravels < 0 then 0 else indexTravels, |lines|)
    {
      r := ReadStatusLines(lines, if indexTravels < 0 then 0 else indexTravels);
    }

    /** `readTravelsStatus(file)` with every stored travel offered each line. */
    method ReadTravelsStatus(lines: seq<string>) returns (r: Result<()>)
      requires Valid()
      modifies Tables()
      ensures Valid()
      ensures (r, Views()) == MO.ApplyLines(old(Views()), Ids(), lines, ';', |Ids()|, |lines|)
    {
      r := ReadStatusLines(lines, indexTravels + 1);
    }
  }

  /** The first `n` lines read, each offered to the first `count` travels, without an exception. */
  ghost predicate LinesRead(v0: seq<seq<Option<string>>>, ids: seq<string>, lines: seq<string>, count: nat, n: nat,
                            views: seq<seq<Option<string>>>)
  {
    |v0| == |ids| && count <= |ids| && n <= |lines| && MO.ApplyLines(v0, ids, lines, ';', count, n) == (Ok(()), views)
  }

  /**
   * The innermost loops of `readTravelsStatus` for one travel: element 0 of
   * the line must exist; when it is the travel's id, each later element is
   * read into the table.
   */
  method ReadTravelTokens(t: LT.Travel, tokens: seq<string>) returns (r: Result<()>)
    requires t.Valid()
    modifies t.seats
    ensures t.Valid()
    ensures (r, t.View()) == MO.ApplyToTravel(old(t.View()), t.record.id, tokens)
  {
    if |tokens| == 0 {
      return Err(IndexOutOfBounds);
    }
    if tokens[0] != t.record.id {
      return Ok(());
    }
    ghost var v0 := t.View();
    MO.ApplyToTravelEntries(v0, t.record.id, tokens);
    var k := 1;
    while k < |tokens|
      invariant 1 <= k <= |tokens| && t.Valid()
      invariant (Ok(()), t.View()) == MO.ApplyEntries(v0, tokens[1..k])
    {
      MO.ApplyTokensStep(v0, tokens, k, t.View());
      r := ReadElement(t, tokens[k]);
      if r.Err? {
        MO.ApplyTokensStop(v0, tokens, k);
        return;
      }
      k := k + 1;
    }
    r := Ok(());
  }

  /** One element `seat-dni`: `Integer.parseInt(elements[0])`, then `elements[1]`, then `assignSeat`. */
  method ReadElement(t: LT.Travel, element: string) returns (r: Result<()>)
    requires t.Valid()
    modifies t.seats
    ensures t.Valid()
    ensures (r, t.View()) == MO.ApplyEntry(old(t.View()), element)
  {
    var elements := Split(element, '-');
    var seat := IntToken(elements, 0);
    if seat.Err? {
      return Err(seat.exc);
    }
    var dni := Token(elements, 1);
    if dni.Err? {
      return Err(dni.exc);
    }
    var stored := t.AssignSeat(seat.value, dni.value);
    if stored.Err? {
      return Err(stored.exc);
    }
    r := Ok(());
  }

  /** The outer drawing loop of `seatsStatus`: one line per row. */
  method DrawPlan(travel: LT.Travel, perRow: int, rows: int) returns (plan: string)
    requires travel.Valid()
    ensures plan == MO.Plan(travel.View(), travel.seatsNumber, perRow, rows)
  {
    ghost var slots := travel.View();
    ghost var width := MO.Clamp(perRow);
    plan := MO.PlanHeader + "\n";
    var indexSeats := 1;
    var i := 0;
    while i < rows
      invariant 0 <= i <= MO.Clamp(rows)
      invariant indexSeats == 1 + i * width
      invariant plan == MO.PlanHeader + "\n" + TerminatedBy(MO.RowTexts(slots, travel.seatsNumber, width, i), '\n')
      invariant travel.View() == slots
    {
      MO.NextRowFirstSeat(i, width);
      var line;
      line, indexSeats := DrawRow(travel, slots, i, indexSeats, perRow);
      MO.PlanStep(slots, travel.seatsNumber, width, i, plan, line);
      plan := plan + line + "\n";
      i := i + 1;
    }
    assert i == MO.Clamp(rows);
  }

  /** The inner drawing loop of `seatsStatus`: row `i`, whose first seat is `first`. */
  method DrawRow(travel: LT.Travel, ghost slots: seq<Option<string>>, i: nat, first: int, perRow: int) returns (line: string, next: int)
    requires travel.Valid() && slots == travel.View() && first >= 1
    ensures line == Pad2(i + 1) + " " + "| " + MO.RowCells(slots, travel.seatsNumber, first, MO.Clamp(perRow))
    ensures next == first + MO.Clamp(perRow)
  {
    ghost var head := Pad2(i + 1) + " " + "| ";
    line := Pad2(i + 1) + " " + "| ";
    var indexSeats := first;
    var j := 1;
    while j <= perRow
      invariant 1 <= j <= MO.Clamp(perRow) + 1
      invariant indexSeats == first + (j - 1)
      invariant line == head + MO.RowCells(slots, travel.seatsNumber, first, j - 1)
    {
      var free := travel.IsSeatFree(indexSeats);
      MO.IsSeatFreeOnPlan(slots, travel.seatsNumber, indexSeats);
      MO.CellStep(slots, travel.seatsNumber, first, j, head);
      line := line + MO.SeatCell(free == Ok(true), indexSeats, j);
      indexSeats := indexSeats + 1;
      j := j + 1;
    }
    next := indexSeats;
  }

  /** A line offered to the first `upTo` travels leaves the tables from `upTo` on as they were. */
  lemma {:induction false} ApplyToTravelsBeyond(tables: seq<seq<Option<string>>>, ids: seq<string>, tokens: seq<string>, upTo: nat, j: nat)
    requires |tables| == |ids| && upTo <= j < |ids|
    ensures MO.ApplyToTravels(tables, ids, tokens, upTo).1[j] == tables[j]
    decreases upTo
  {
    if upTo > 0 {
      ApplyToTravelsBeyond(tables, ids, tokens, upTo - 1, j);
    }
  }

  /**
   * Lines offered to the first `count` travels leave the tables from
   * `count` on as they were: with `count` one short of the store, as the
   * reader is written, the last stored travel is never read into.
   */
  lemma {:induction false} ApplyLinesBeyond(tables: seq<seq<Option<string>>>, ids: seq<string>, lines: seq<string>, count: nat, upTo: nat, j: nat)
    requires |tables| == |ids| && count <= j < |ids| && upTo <= |lines|
    ensures MO.ApplyLines(tables, ids, lines, ';', count, upTo).1[j] == tables[j]
    decreases upTo
  {
    if upTo > 0 {
      ApplyLinesBeyond(tables, ids, lines, count, upTo - 1, j);
      var after := MO.ApplyLines(tables, ids, lines, ';', count, upTo - 1).1;
      ApplyToTravelsBeyond(after, ids, Split(lines[upTo - 1], ';'), count, j);
    }
  }

  /**
   * So an office holding one travel loses that travel's occupied seats on
   * reload, while the corrected reader restores them from its own status line.
   */
  lemma OnlyTravelLostAsWritten(id: string, slots: seq<Option<string>>, seat: nat)
    requires id != "" && ';' !in id && SSD.Restorable(slots) && ST.DnisFree(slots, ';')
    requires seat < |slots| && slots[seat].Some?
    ensures var empty := SSD.EmptyTable(|slots|); var line := StatusLineBy(id, slots, ';');
      MO.ApplyLines([empty], [id], [line], ';', 0, 1).1 != [slots] &&
      MO.ApplyLines([empty], [id], [line], ';', 1, 1) == (Ok(()), [slots])
  {
    var empty := SSD.EmptyTable(|slots|);
    ApplyLinesBeyond([empty], [id], [StatusLineBy(id, slots, ';')], 0, 1, 0);
    assert empty[seat] != slots[seat];
    MO.StatusLineRestores(id, slots, ';');
  }
}

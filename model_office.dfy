/**
 * The desktop application's office: a list of passengers and a list of
 * travels, the travels keeping their own seat tables.  The class keeps both
 * lists in static fields; one object stands for them here.
 */
module ModelOffice {
  import opened Outcomes
  import opened Text
  import opened ServerPassenger
  import ST = ServerTravel
  import SSD = ServerSalesDesk
  import opened ModelTravel
  import MP = ModelPassenger

  // ---------------------------------------------------------------------------
  // The lists, keyed by DNI and by id

  /** The first travel with the id, or null. */
  function FindTravel(ts: seq<Travel>, id: string): (r: Option<Travel>)
    ensures r.Some? ==> r.value in ts && r.value.record.id == id
    ensures r.None? <==> forall t :: t in ts ==> t.record.id != id
  {
    if |ts| == 0 then None
    else if ts[0].record.id == id then Some(ts[0])
    else FindTravel(ts[1..], id)
  }

  /** `ArrayList.remove(p)`: the first passenger equal to `p`, that is with its DNI, is removed. */
  function RemovePassenger(ps: seq<Passenger>, dni: string): seq<Passenger> {
    if |ps| == 0 then []
    else if ps[0].dni == dni then ps[1..]
    else [ps[0]] + RemovePassenger(ps[1..], dni)
  }

  /** `ArrayList.remove(t)`: the first travel equal to `t`, that is with its id, is removed. */
  function RemoveTravel(ts: seq<Travel>, id: string): seq<Travel> {
    if |ts| == 0 then []
    else if ts[0].record.id == id then ts[1..]
    else [ts[0]] + RemoveTravel(ts[1..], id)
  }

  /** The position of the first passenger with the DNI. */
  function PassengerIndex(ps: seq<Passenger>, dni: string): (k: int)
    ensures -1 <= k < |ps|
    ensures k >= 0 ==> ps[k].dni == dni && forall i :: 0 <= i < k ==> ps[i].dni != dni
    ensures k < 0 ==> forall i :: 0 <= i < |ps| ==> ps[i].dni != dni
  {
    if |ps| == 0 then -1
    else if ps[0].dni == dni then 0
    else var k := PassengerIndex(ps[1..], dni); if k < 0 then -1 else k + 1
  }

  /** The position of the first travel with the id. */
  function TravelIndex(ts: seq<Travel>, id: string): (k: int)
    ensures -1 <= k < |ts|
    ensures k >= 0 ==> ts[k].record.id == id && forall i :: 0 <= i < k ==> ts[i].record.id != id
    ensures k < 0 ==> forall i :: 0 <= i < |ts| ==> ts[i].record.id != id
  {
    if |ts| == 0 then -1
    else if ts[0].record.id == id then 0
    else var k := TravelIndex(ts[1..], id); if k < 0 then -1 else k + 1
  }

  /**
   * Removing by DNI takes out exactly the first passenger with that DNI and
   * keeps the others in order; without one the list is unchanged.
   */
  lemma {:induction false} RemovePassengerCases(ps: seq<Passenger>, dni: string)
    ensures var k := PassengerIndex(ps, dni);
      RemovePassenger(ps, dni) == if k < 0 then ps else ps[..k] + ps[k + 1..]
    decreases |ps|
  {
    if |ps| > 0 && ps[0].dni != dni {
      var tail := ps[1..];
      RemovePassengerCases(tail, dni);
      var k := PassengerIndex(tail, dni);
      assert RemovePassenger(ps, dni) == [ps[0]] + RemovePassenger(tail, dni);
      if k >= 0 {
        assert PassengerIndex(ps, dni) == k + 1;
        assert tail[..k] == ps[1..k + 1] && tail[k + 1..] == ps[k + 2..];
        assert [ps[0]] + ps[1..k + 1] == ps[..k + 1];
      } else {
        assert PassengerIndex(ps, dni) == -1;
        assert [ps[0]] + tail == ps;
      }
    }
  }

  /**
   * Removing by id takes out exactly the first travel with that id and
   * keeps the others in order; without one the list is unchanged.
   */
  lemma {:induction false} RemoveTravelCases(ts: seq<Travel>, id: string)
    ensures var k := TravelIndex(ts, id);
      RemoveTravel(ts, id) == if k < 0 then ts else ts[..k] + ts[k + 1..]
    decreases |ts|
  {
    if |ts| > 0 && ts[0].record.id != id {
      var tail := ts[1..];
      RemoveTravelCases(tail, id);
      var k := TravelIndex(tail, id);
      assert RemoveTravel(ts, id) == [ts[0]] + RemoveTravel(tail, id);
      if k >= 0 {
        assert TravelIndex(ts, id) == k + 1;
        assert tail[..k] == ts[1..k + 1] && tail[k + 1..] == ts[k + 2..];
        assert [ts[0]] + ts[1..k + 1] == ts[..k + 1];
      } else {
        assert TravelIndex(ts, id) == -1;
        assert [ts[0]] + tail == ts;
      }
    }
  }

  /** The search finds the passenger at the first position with the DNI. */
  lemma {:induction false} FindPassengerAtIndex(ps: seq<Passenger>, dni: string)
    ensures var k := PassengerIndex(ps, dni);
      SSD.FindPassenger(ps, dni) == if k < 0 then None else Some(ps[k])
    decreases |ps|
  {
    if |ps| > 0 && ps[0].dni != dni {
      FindPassengerAtIndex(ps[1..], dni);
    }
  }

  /** The search finds the travel at the first position with the id. */
  lemma {:induction false} FindTravelAtIndex(ts: seq<Travel>, id: string)
    ensures var k := TravelIndex(ts, id);
      FindTravel(ts, id) == if k < 0 then None else Some(ts[k])
    decreases |ts|
  {
    if |ts| > 0 && ts[0].record.id != id {
      FindTravelAtIndex(ts[1..], id);
    }
  }

  // ---------------------------------------------------------------------------
  // Listings

  /** A listing, as the lines it is made of: each line and a newline, one after the other. */
  lemma {:induction false} ListingLines(lines: seq<string>)
    requires forall i :: 0 <= i < |lines| ==> '\n' !in lines[i]
    ensures Fields(TerminatedBy(lines, '\n'), '\n') == lines + [""]
  {
    TerminatedByIsJoin(lines, '\n');
    assert SeparatorFree(lines + [""], '\n');
    FieldsOfJoin(lines + [""], '\n');
  }

  lemma {:induction false} TerminatedByIsJoin(es: seq<string>, d: char)
    ensures TerminatedBy(es, d) == Join(es + [""], d)
    decreases |es|
  {
    if |es| == 0 {
      assert es + [""] == [""];
    } else {
      var init, last := es[..|es| - 1], es[|es| - 1];
      TerminatedByIsJoin(init, d);
      assert es == init + [last];
      JoinSnoc(es, "", d);
      if |init| == 0 {
        assert es == [last];
        assert init + [""] == [""];
      } else {
        JoinSnoc(init, last, d);
        JoinSnoc(init, "", d);
      }
    }
  }

  /** The `toString()` lines of the passengers, in list order. */
  function PassengerLines(ps: seq<Passenger>): (lines: seq<string>)
    ensures |lines| == |ps| && forall i :: 0 <= i < |ps| ==> lines[i] == ToString(ps[i])
  {
    seq(|ps|, i requires 0 <= i < |ps| => ToString(ps[i]))
  }

  /** The `toString()` lines of the travels, in list order. */
  function TravelLines(ts: seq<Travel>): (lines: seq<string>)
    ensures |lines| == |ts| && forall i :: 0 <= i < |ts| ==> lines[i] == ts[i].ToString()
  {
    seq(|ts|, i requires 0 <= i < |ts| => ts[i].ToString())
  }

  // ---------------------------------------------------------------------------
  // The seat plan

  /** The fixed first line of the plan. */
  const PlanHeader := "_____" + "__A__B____C__D__"

  /** What `isSeatFree` answers for a seat number of at least 1 on a travel's table. */
  predicate SeatFree(slots: seq<Option<string>>, seatsNumber: int, seat: int) {
    seat <= seatsNumber && 0 <= seat < |slots| && slots[seat].None?
  }

  /** One seat: its number when free, a dot when taken; after seat 2 of a row, an aisle of two spaces. */
  function SeatCell(free: bool, seat: int, j: int): string {
    (if free then " " + Pad2(seat) else " " + " .") + (if j == 2 then "  " else "")
  }

  /** Seats `first` to `first + upTo - 1`, as columns 1 to `upTo` of a row. */
  function RowCells(slots: seq<Option<string>>, seatsNumber: int, first: int, upTo: nat): string {
    if upTo == 0 then ""
    else RowCells(slots, seatsNumber, first, upTo - 1) +
         SeatCell(SeatFree(slots, seatsNumber, first + upTo - 1), first + upTo - 1, upTo)
  }

  /** Row `i` (from 0): its number, a bar and its `perRow` seats, the first being `1 + i * perRow`. */
  function RowText(slots: seq<Option<string>>, seatsNumber: int, perRow: nat, i: nat): string {
    Pad2(i + 1) + " " + "| " + RowCells(slots, seatsNumber, 1 + i * perRow, perRow)
  }

  function RowTexts(slots: seq<Option<string>>, seatsNumber: int, perRow: nat, rows: nat): (r: seq<string>)
    ensures |r| == rows && forall i :: 0 <= i < rows ==> r[i] == RowText(slots, seatsNumber, perRow, i)
  {
    seq(rows, i requires 0 <= i < rows => RowText(slots, seatsNumber, perRow, i))
  }

  function Clamp(n: int): nat {
    if n < 0 then 0 else n
  }

  /** The plan: the header, then one line per row; a negative count draws nothing. */
  function Plan(slots: seq<Option<string>>, seatsNumber: int, perRow: int, rows: int): string {
    PlanHeader + "\n" + TerminatedBy(RowTexts(slots, seatsNumber, Clamp(perRow), Clamp(rows)), '\n')
  }

  /**
   * `seatsStatus(travel)`: seats per row and rows are the two parts of the
   * distribution; a missing part or one that is no int is an exception.
   */
  function SeatsStatusOf(distribution: string, slots: seq<Option<string>>, seatsNumber: int): Result<string> {
    var parts := Split(distribution, 'x');
    var perRow :- IntToken(parts, 0);
    var rows :- IntToken(parts, 1);
    Ok(Plan(slots, seatsNumber, perRow, rows))
  }

  lemma Pad2Plain(n: int)
    ensures '\n' !in Pad2(n)
  {
    IntToStringFree(n, '\n');
    if 0 <= n < 10 {
      assert Pad2(n) == "0" + IntToString(n);
    }
  }

  lemma {:induction false} RowCellsPlain(slots: seq<Option<string>>, seatsNumber: int, first: int, upTo: nat)
    ensures '\n' !in RowCells(slots, seatsNumber, first, upTo)
    decreases upTo
  {
    if upTo > 0 {
      RowCellsPlain(slots, seatsNumber, first, upTo - 1);
      Pad2Plain(first + upTo - 1);
    }
  }

  lemma RowTextPlain(slots: seq<Option<string>>, seatsNumber: int, perRow: nat, i: nat)
    ensures '\n' !in RowText(slots, seatsNumber, perRow, i)
  {
    Pad2Plain(i + 1);
    RowCellsPlain(slots, seatsNumber, 1 + i * perRow, perRow);
  }

  /**
   * The plan is the header line followed by exactly one line per row, each
   * line being the row's number and its seats.
   */
  lemma PlanLines(slots: seq<Option<string>>, seatsNumber: int, perRow: int, rows: int)
    ensures Fields(Plan(slots, seatsNumber, perRow, rows), '\n') ==
      [PlanHeader] + RowTexts(slots, seatsNumber, Clamp(perRow), Clamp(rows)) + [""]
  {
    var texts := RowTexts(slots, seatsNumber, Clamp(perRow), Clamp(rows));
    PrependLine(PlanHeader, texts, '\n');
    PlanLinesPlain(slots, seatsNumber, Clamp(perRow), Clamp(rows));
    ListingLines([PlanHeader] + texts);
  }

  lemma PlanLinesPlain(slots: seq<Option<string>>, seatsNumber: int, perRow: nat, rows: nat)
    ensures forall i :: 0 <= i < rows + 1 ==> '\n' !in ([PlanHeader] + RowTexts(slots, seatsNumber, perRow, rows))[i]
  {
    var all := [PlanHeader] + RowTexts(slots, seatsNumber, perRow, rows);
    forall i | 0 <= i < rows + 1
      ensures '\n' !in all[i]
    {
      if i == 0 {
        PlanHeaderPlain();
      } else {
        var text := RowText(slots, seatsNumber, perRow, i - 1);
        assert all[i] == text;
        RowTextPlain(slots, seatsNumber, perRow, i - 1);
      }
    }
  }

  lemma PlanHeaderPlain()
    ensures '\n' !in PlanHeader
  {
    assert forall k :: 0 <= k < |PlanHeader| ==> PlanHeader[k] in "_ABCD";
  }

  // ---------------------------------------------------------------------------
  // Reading status lines

  /**
   * One `seat-dni` element: split on `-`, element 0 parsed as the seat and
   * element 1 taken as the DNI, then `assignSeat`, whose answer is ignored.
   */
  function ApplyEntry(slots: seq<Option<string>>, element: string): (Result<()>, seq<Option<string>>) {
    var parts := Split(element, '-');
    match IntToken(parts, 0)
    case Err(e) => (Err(e), slots)
    case Ok(seat) =>
      match Token(parts, 1)
      case Err(e) => (Err(e), slots)
      case Ok(dni) =>
        var (stored, after) := ST.AssignIn(slots, seat, dni);
        if stored.Err? then (Err(stored.exc), slots) else (Ok(()), after)
  }

  /** The elements in order; the first failure stops, and the assignments before it stay. */
  function ApplyEntries(slots: seq<Option<string>>, elements: seq<string>): (Result<()>, seq<Option<string>>)
    decreases |elements|
  {
    if |elements| == 0 then (Ok(()), slots)
    else
      var (r, after) := ApplyEntry(slots, elements[0]);
      if r.Err? then (r, after) else ApplyEntries(after, elements[1..])
  }

  /** Reading one more element after the others is reading it into the table they left. */
  lemma {:induction false} ApplyEntriesSnoc(slots: seq<Option<string>>, elements: seq<string>, e: string)
    ensures ApplyEntries(slots, elements + [e]) ==
      (var (r, after) := ApplyEntries(slots, elements); if r.Err? then (r, after) else ApplyEntry(after, e))
    decreases |elements|
  {
    if |elements| == 0 {
      assert elements + [e] == [e];
    } else {
      assert (elements + [e])[1..] == elements[1..] + [e];
      var (r, after) := ApplyEntry(slots, elements[0]);
      if r.Ok? {
        ApplyEntriesSnoc(after, elements[1..], e);
      }
    }
  }

  /** A travel whose id is element 0 of the line takes all its elements; element 0 must exist. */
  function ApplyToTravel(slots: seq<Option<string>>, id: string, tokens: seq<string>): (Result<()>, seq<Option<string>>) {
    if |tokens| == 0 then (Err(IndexOutOfBounds), slots)
    else if tokens[0] == id then ApplyEntries(slots, tokens[1..])
    else (Ok(()), slots)
  }

  /** The first `upTo` travels of the list, in order, each offered the line; a failure stops the reading. */
  function ApplyToTravels(tables: seq<seq<Option<string>>>, ids: seq<string>, tokens: seq<string>, upTo: nat)
    : (r: (Result<()>, seq<seq<Option<string>>>))
    requires |tables| == |ids| && upTo <= |ids|
    ensures |r.1| == |tables|
  {
    if upTo == 0 then (Ok(()), tables)
    else
      var (r, after) := ApplyToTravels(tables, ids, tokens, upTo - 1);
      if r.Err? then (r, after)
      else
        var (r', slots) := ApplyToTravel(after[upTo - 1], ids[upTo - 1], tokens);
        (r', after[upTo - 1 := slots])
  }

  /** The first `upTo` lines of the status file, each split on `d` and offered to the first `count` travels. */
  function ApplyLines(tables: seq<seq<Option<string>>>, ids: seq<string>, lines: seq<string>, d: char, count: nat, upTo: nat)
    : (r: (Result<()>, seq<seq<Option<string>>>))
    requires |tables| == |ids| && count <= |ids| && upTo <= |lines|
    ensures |r.1| == |tables|
  {
    if upTo == 0 then (Ok(()), tables)
    else
      var (r, after) := ApplyLines(tables, ids, lines, d, count, upTo - 1);
      if r.Err? then (r, after) else ApplyToTravels(after, ids, Split(lines[upTo - 1], d), count)
  }

  /**
   * The travel at position `i` offered the line, of the first `count`: the
   * reading goes on, or its failure is the outcome.
   */
  lemma ApplyToTravelsNext(tables: seq<seq<Option<string>>>, ids: seq<string>, tokens: seq<string>, count: nat, i: nat,
                           cur: seq<seq<Option<string>>>, r: Result<()>, after: seq<seq<Option<string>>>)
    requires |tables| == |ids| && i < count <= |ids| && ApplyToTravels(tables, ids, tokens, i) == (Ok(()), cur)
    requires |after| == |cur| && (r, after[i]) == ApplyToTravel(cur[i], ids[i], tokens) && after == cur[i := after[i]]
    ensures r.Ok? ==> ApplyToTravels(tables, ids, tokens, i + 1) == (Ok(()), after)
    ensures r.Err? ==> ApplyToTravels(tables, ids, tokens, count) == (r, after)
  {
    ApplyToTravelsStep(tables, ids, tokens, i, cur);
    if r.Err? {
      ApplyToTravelsStops(tables, ids, tokens, i + 1, count);
    } else {
      assert r.value == ();
    }
  }

  /** Line `n` read: the reading goes on, or its failure is the outcome. */
  lemma ApplyLinesNext(tables: seq<seq<Option<string>>>, ids: seq<string>, lines: seq<string>, d: char, count: nat, n: nat,
                       cur: seq<seq<Option<string>>>, r: Result<()>, after: seq<seq<Option<string>>>)
    requires |tables| == |ids| && count <= |ids| && n < |lines| && ApplyLines(tables, ids, lines, d, count, n) == (Ok(()), cur)
    requires (r, after) == ApplyToTravels(cur, ids, Split(lines[n], d), count)
    ensures r.Ok? ==> ApplyLines(tables, ids, lines, d, count, n + 1) == (Ok(()), after)
    ensures r.Err? ==> ApplyLines(tables, ids, lines, d, count, |lines|) == (r, after)
  {
    ApplyLinesStep(tables, ids, lines, d, count, n, cur);
    if r.Err? {
      ApplyLinesStops(tables, ids, lines, d, count, n + 1, |lines|);
    } else {
      assert r.value == ();
    }
  }

  /** One more travel offered the line, after the others succeeded. */
  lemma ApplyToTravelsStep(tables: seq<seq<Option<string>>>, ids: seq<string>, tokens: seq<string>, i: nat, cur: seq<seq<Option<string>>>)
    requires |tables| == |ids| && i < |ids| && ApplyToTravels(tables, ids, tokens, i) == (Ok(()), cur)
    ensures ApplyToTravels(tables, ids, tokens, i + 1) ==
      (ApplyToTravel(cur[i], ids[i], tokens).0, cur[i := ApplyToTravel(cur[i], ids[i], tokens).1])
  {
  }

  /** One more line read, after the others succeeded. */
  lemma ApplyLinesStep(tables: seq<seq<Option<string>>>, ids: seq<string>, lines: seq<string>, d: char, count: nat, n: nat, cur: seq<seq<Option<string>>>)
    requires |tables| == |ids| && count <= |ids| && n < |lines| && ApplyLines(tables, ids, lines, d, count, n) == (Ok(()), cur)
    ensures ApplyLines(tables, ids, lines, d, count, n + 1) == ApplyToTravels(cur, ids, Split(lines[n], d), count)
  {
  }

  /** For a line whose element 0 is the travel's id, the travel reads elements 1 onwards. */
  lemma ApplyToTravelEntries(slots: seq<Option<string>>, id: string, tokens: seq<string>)
    requires |tokens| >= 1 && tokens[0] == id
    ensures ApplyToTravel(slots, id, tokens) == ApplyEntries(slots, tokens[1..|tokens|])
  {
    assert tokens[1..|tokens|] == tokens[1..];
  }

  /** Element `k` of a line, read after elements 1 to `k - 1` succeeded. */
  lemma ApplyTokensStep(slots: seq<Option<string>>, tokens: seq<string>, k: nat, cur: seq<Option<string>>)
    requires 1 <= k < |tokens| && ApplyEntries(slots, tokens[1..k]) == (Ok(()), cur)
    ensures ApplyEntries(slots, tokens[1..k + 1]) == ApplyEntry(cur, tokens[k])
  {
    SliceSnoc(tokens, 1, k);
    ApplyEntriesSnoc(slots, tokens[1..k], tokens[k]);
  }

  /** When element `k` of a line fails, the rest of the line is not read. */
  lemma ApplyTokensStop(slots: seq<Option<string>>, tokens: seq<string>, k: nat)
    requires 1 <= k < |tokens| && ApplyEntries(slots, tokens[1..k + 1]).0.Err?
    ensures ApplyEntries(slots, tokens[1..|tokens|]) == ApplyEntries(slots, tokens[1..k + 1])
  {
    assert tokens[1..|tokens|][..k] == tokens[1..k + 1];
    ApplyEntriesStops(slots, tokens[1..|tokens|], k);
  }

  /** Once an element fails, the elements after it are not read. */
  lemma {:induction false} ApplyEntriesStops(slots: seq<Option<string>>, elements: seq<string>, k: nat)
    requires k <= |elements| && ApplyEntries(slots, elements[..k]).0.Err?
    ensures ApplyEntries(slots, elements) == ApplyEntries(slots, elements[..k])
    decreases k
  {
    assert elements[..k][0] == elements[0];
    ApplyEntriesCons(slots, elements);
    ApplyEntriesCons(slots, elements[..k]);
    var (r, after) := ApplyEntry(slots, elements[0]);
    if r.Ok? {
      Text.TakeTail(elements, k);
      ApplyEntriesStops(after, elements[1..], k - 1);
    }
  }

  lemma ApplyEntriesCons(slots: seq<Option<string>>, elements: seq<string>)
    requires |elements| > 0
    ensures ApplyEntries(slots, elements) ==
      (var (r, after) := ApplyEntry(slots, elements[0]); if r.Err? then (r, after) else ApplyEntries(after, elements[1..]))
  {
  }

  /** Once a travel's reading fails, the travels after it are not offered the line. */
  lemma {:induction false} ApplyToTravelsStops(tables: seq<seq<Option<string>>>, ids: seq<string>, tokens: seq<string>, k: nat, m: nat)
    requires |tables| == |ids| && k <= m <= |ids| && ApplyToTravels(tables, ids, tokens, k).0.Err?
    ensures ApplyToTravels(tables, ids, tokens, m) == ApplyToTravels(tables, ids, tokens, k)
    decreases m
  {
    if m > k {
      ApplyToTravelsStops(tables, ids, tokens, k, m - 1);
    }
  }

  /** Once a line fails, the lines after it are not read. */
  lemma {:induction false} ApplyLinesStops(tables: seq<seq<Option<string>>>, ids: seq<string>, lines: seq<string>, d: char, count: nat, k: nat, m: nat)
    requires |tables| == |ids| && count <= |ids| && k <= m <= |lines| && ApplyLines(tables, ids, lines, d, count, k).0.Err?
    ensures ApplyLines(tables, ids, lines, d, count, m) == ApplyLines(tables, ids, lines, d, count, k)
    decreases m
  {
    if m > k {
      ApplyLinesStops(tables, ids, lines, d, count, k, m - 1);
      ApplyLinesStopStep(tables, ids, lines, d, count, m);
    }
  }

  lemma ApplyLinesStopStep(tables: seq<seq<Option<string>>>, ids: seq<string>, lines: seq<string>, d: char, count: nat, m: nat)
    requires |tables| == |ids| && count <= |ids| && 0 < m <= |lines| && ApplyLines(tables, ids, lines, d, count, m - 1).0.Err?
    ensures ApplyLines(tables, ids, lines, d, count, m) == ApplyLines(tables, ids, lines, d, count, m - 1)
  {
  }

  /** The element written for an occupied seat is read back into the empty slot. */
  lemma ApplyEntryOfEntry(slots: seq<Option<string>>, seat: nat, dni: string)
    requires 1 <= seat < |slots| && seat <= MaxInt32 && slots[seat].None?
    requires dni != "" && '-' !in dni
    ensures ApplyEntry(slots, ST.Entry(seat, dni)) == (Ok(()), slots[seat := Some(dni)])
  {
    var number := IntToString(seat);
    assert '-' !in number by {
      forall k | 0 <= k < |number|
        ensures number[k] != '-'
      {
        assert IsDigit(number[k]);
      }
    }
    assert Join([number, dni], '-') == ST.Entry(seat, dni) by {
      assert [number, dni][1..] == [dni];
    }
    SplitOfJoin([number, dni], '-');
    ParseIntOfIntToString(seat);
  }

  /** The elements of slots 1 to `upTo - 1` restore those slots into the empty table. */
  lemma {:induction false} ApplyEntriesRestore(slots: seq<Option<string>>, upTo: nat)
    requires 1 <= upTo <= |slots| && upTo - 1 <= MaxInt32 && SSD.ReadableUpTo(slots, upTo)
    ensures ApplyEntries(SSD.EmptyTable(|slots|), ST.Entries(slots, upTo)) == (Ok(()), SSD.Prefix(slots, upTo))
    decreases upTo
  {
    if upTo == 1 {
      ApplyNothing(slots);
    } else {
      ApplyStep(slots, upTo);
      ApplyEntriesRestore(slots, upTo - 1);
    }
  }

  lemma ApplyNothing(slots: seq<Option<string>>)
    requires |slots| >= 1
    ensures ApplyEntries(SSD.EmptyTable(|slots|), ST.Entries(slots, 1)) == (Ok(()), SSD.Prefix(slots, 1))
  {
    assert ST.Entries(slots, 1) == [];
    assert SSD.Prefix(slots, 1) == SSD.EmptyTable(|slots|);
  }

  /** Reading slots 1 to `upTo - 2` back without failure extends to slot `upTo - 1`. */
  lemma ApplyStep(slots: seq<Option<string>>, upTo: nat)
    requires 2 <= upTo <= |slots| && upTo - 1 <= MaxInt32
    requires slots[upTo - 1].Some? ==> slots[upTo - 1].value != "" && '-' !in slots[upTo - 1].value
    ensures ApplyEntries(SSD.EmptyTable(|slots|), ST.Entries(slots, upTo - 1)) == (Ok(()), SSD.Prefix(slots, upTo - 1)) ==>
      ApplyEntries(SSD.EmptyTable(|slots|), ST.Entries(slots, upTo)) == (Ok(()), SSD.Prefix(slots, upTo))
  {
    if ApplyEntries(SSD.EmptyTable(|slots|), ST.Entries(slots, upTo - 1)) == (Ok(()), SSD.Prefix(slots, upTo - 1)) {
      if slots[upTo - 1].Some? {
        ApplyOccupiedNext(slots, upTo);
      } else {
        ApplyEmptyNext(slots, upTo);
      }
    }
  }

  lemma ApplyOccupiedNext(slots: seq<Option<string>>, upTo: nat)
    requires 2 <= upTo <= |slots| && upTo - 1 <= MaxInt32 && slots[upTo - 1].Some?
    requires slots[upTo - 1].value != "" && '-' !in slots[upTo - 1].value
    requires ApplyEntries(SSD.EmptyTable(|slots|), ST.Entries(slots, upTo - 1)) == (Ok(()), SSD.Prefix(slots, upTo - 1))
    ensures ApplyEntries(SSD.EmptyTable(|slots|), ST.Entries(slots, upTo)) == (Ok(()), SSD.Prefix(slots, upTo))
  {
    EntriesOccupied(slots, upTo);
    ApplyOccupiedSeat(slots, upTo, ST.Entries(slots, upTo - 1));
  }

  lemma ApplyEmptyNext(slots: seq<Option<string>>, upTo: nat)
    requires 2 <= upTo <= |slots| && slots[upTo - 1].None?
    requires ApplyEntries(SSD.EmptyTable(|slots|), ST.Entries(slots, upTo - 1)) == (Ok(()), SSD.Prefix(slots, upTo - 1))
    ensures ApplyEntries(SSD.EmptyTable(|slots|), ST.Entries(slots, upTo)) == (Ok(()), SSD.Prefix(slots, upTo))
  {
    EntriesEmptySlot(slots, upTo);
    SSD.PrefixStep(slots, upTo);
  }

  lemma EntriesOccupied(slots: seq<Option<string>>, upTo: nat)
    requires 2 <= upTo <= |slots| && slots[upTo - 1].Some?
    ensures ST.Entries(slots, upTo) == ST.Entries(slots, upTo - 1) + [ST.Entry(upTo - 1, slots[upTo - 1].value)]
  {
  }

  lemma EntriesEmptySlot(slots: seq<Option<string>>, upTo: nat)
    requires 2 <= upTo <= |slots| && slots[upTo - 1].None?
    ensures ST.Entries(slots, upTo) == ST.Entries(slots, upTo - 1)
  {
    assert ST.Entries(slots, upTo - 1) + [] == ST.Entries(slots, upTo - 1);
  }

  lemma ApplyOccupiedSeat(slots: seq<Option<string>>, upTo: nat, es: seq<string>)
    requires 2 <= upTo <= |slots| && upTo - 1 <= MaxInt32 && slots[upTo - 1].Some?
    requires slots[upTo - 1].value != "" && '-' !in slots[upTo - 1].value
    requires ApplyEntries(SSD.EmptyTable(|slots|), es) == (Ok(()), SSD.Prefix(slots, upTo - 1))
    ensures ApplyEntries(SSD.EmptyTable(|slots|), es + [ST.Entry(upTo - 1, slots[upTo - 1].value)]) == (Ok(()), SSD.Prefix(slots, upTo))
  {
    SSD.PrefixStep(slots, upTo);
    ApplyEntriesSnocEntry(SSD.EmptyTable(|slots|), es, SSD.Prefix(slots, upTo - 1), upTo - 1, slots[upTo - 1].value);
  }

  /** After elements read without failure, the element of an empty seat fills that seat. */
  lemma ApplyEntriesSnocEntry(slots: seq<Option<string>>, es: seq<string>, t: seq<Option<string>>, seat: nat, dni: string)
    requires ApplyEntries(slots, es) == (Ok(()), t)
    requires 1 <= seat < |t| && seat <= MaxInt32 && t[seat].None? && dni != "" && '-' !in dni
    ensures ApplyEntries(slots, es + [ST.Entry(seat, dni)]) == (Ok(()), t[seat := Some(dni)])
  {
    ApplyEntriesSnoc(slots, es, ST.Entry(seat, dni));
    ApplyEntryOfEntry(t, seat, dni);
  }

  /**
   * Split on the separator it was written with, a status line gives the id
   * and then the elements: the separator after the last element leaves an
   * empty last field, which `split` drops.
   */
  lemma StatusLineFields(id: string, slots: seq<Option<string>>, d: char)
    requires id != "" && d !in id && NotInNumbers(d) && SSD.Restorable(slots) && ST.DnisFree(slots, d)
    ensures Split(StatusLineBy(id, slots, d), d) == [id] + ST.Entries(slots, |slots|)
  {
    var es := ST.Entries(slots, |slots|);
    var fs := [id] + es;
    EntriesFree(slots, |slots|, d);
    PrependLine(id, es, d);
    TerminatedByIsJoin(fs, d);
    assert StatusLineBy(id, slots, d) == TerminatedBy(fs, d);
    JoinSnoc(fs, "", d);
    assert SeparatorFree(fs, d);
    EntriesNonEmpty(slots, |slots|);
    assert fs[|fs| - 1] != "";
    SplitDropsLastEmpty(fs, d);
  }

  /** A first element in front of the others is followed by its own separator. */
  lemma {:induction false} PrependLine(h: string, es: seq<string>, d: char)
    ensures h + [d] + TerminatedBy(es, d) == TerminatedBy([h] + es, d)
    decreases |es|
  {
    if |es| == 0 {
      assert ([h] + es)[..0] == [];
    } else {
      PrependLine(h, es[..|es| - 1], d);
      assert ([h] + es)[..|[h] + es| - 1] == [h] + es[..|es| - 1];
    }
  }

  /** A line written as fields with a separator after the last one splits into those fields. */
  lemma SplitDropsLastEmpty(fs: seq<string>, d: char)
    requires |fs| >= 1 && SeparatorFree(fs, d) && fs[|fs| - 1] != ""
    ensures Split(Join(fs + [""], d), d) == fs
  {
    var all := fs + [""];
    assert SeparatorFree(all, d);
    FieldsOfJoin(all, d);
    JoinHasSeparator(all, d);
    assert all[..|fs|] == fs;
  }

  lemma {:induction false} EntriesFree(slots: seq<Option<string>>, upTo: nat, d: char)
    requires upTo <= |slots| && NotInNumbers(d) && ST.DnisFree(slots, d) && d != '-'
    ensures SeparatorFree(ST.Entries(slots, upTo), d)
    decreases upTo
  {
    if upTo > 1 {
      EntriesFree(slots, upTo - 1, d);
      if slots[upTo - 1].Some? {
        IntToStringFree(upTo - 1, d);
      }
    }
  }

  lemma {:induction false} EntriesNonEmpty(slots: seq<Option<string>>, upTo: nat)
    requires upTo <= |slots|
    ensures forall i :: 0 <= i < |ST.Entries(slots, upTo)| ==> ST.Entries(slots, upTo)[i] != ""
    decreases upTo
  {
    if upTo > 1 {
      EntriesNonEmpty(slots, upTo - 1);
    }
  }

  /**
   * Read with the separator it was written with, the status line of a
   * travel restores the travel's table into the empty table of a store that
   * holds that travel.
   */
  lemma StatusLineRestores(id: string, slots: seq<Option<string>>, d: char)
    requires id != "" && d !in id && NotInNumbers(d) && SSD.Restorable(slots) && ST.DnisFree(slots, d)
    ensures ApplyLines([SSD.EmptyTable(|slots|)], [id], [StatusLineBy(id, slots, d)], d, 1, 1) == (Ok(()), [slots])
  {
    var empty := SSD.EmptyTable(|slots|);
    var line := StatusLineBy(id, slots, d);
    var tokens := [id] + ST.Entries(slots, |slots|);
    StatusLineFields(id, slots, d);
    assert ApplyToTravel(empty, id, tokens) == (Ok(()), slots) by {
      SSD.RestorableReadable(slots, |slots|);
      ApplyEntriesRestore(slots, |slots|);
      SSD.PrefixOfAll(slots);
      assert tokens[1..] == ST.Entries(slots, |slots|);
    }
    assert ApplyToTravels([empty], [id], tokens, 0) == (Ok(()), [empty]);
    assert [empty][0 := slots] == [slots];
  }

  /** The elements, and so the line they are written into, are free of a character no field holds. */
  lemma {:induction false} TerminatedByFree(es: seq<string>, d: char, c: char)
    requires SeparatorFree(es, c) && c != d
    ensures c !in TerminatedBy(es, d)
    decreases |es|
  {
    if |es| > 0 {
      TerminatedByFree(es[..|es| - 1], d, c);
    }
  }

  /**
   * As written, the reader splits on `;` while the travel writes its status
   * line with `,`: the line is then one field, longer than the id, so no
   * status line is ever read back and every table stays empty.
   */
  lemma StatusLineLostAsWritten(id: string, slots: seq<Option<string>>)
    requires ';' !in id && ST.DnisFree(slots, ';')
    ensures var empty := SSD.EmptyTable(|slots|);
      ApplyLines([empty], [id], [StatusLineBy(id, slots, ',')], ';', 1, 1) == (Ok(()), [empty])
  {
    var empty := SSD.EmptyTable(|slots|);
    var line := StatusLineBy(id, slots, ',');
    var es := ST.Entries(slots, |slots|);
    EntriesFree(slots, |slots|, ';');
    TerminatedByFree(es, ',', ';');
    assert Split(line, ';') == [line];
    assert line != id by {
      assert |line| > |id|;
    }
    assert ApplyToTravel(empty, id, [line]) == (Ok(()), empty);
    assert ApplyToTravels([empty], [id], [line], 0) == (Ok(()), [empty]);
    assert [empty][0 := empty] == [empty];
  }

  /** So a travel with an occupied seat loses it. */
  lemma OccupiedSeatLostAsWritten(id: string, slots: seq<Option<string>>, seat: nat)
    requires ';' !in id && ST.DnisFree(slots, ';') && seat < |slots| && slots[seat].Some?
    ensures ApplyLines([SSD.EmptyTable(|slots|)], [id], [StatusLineBy(id, slots, ',')], ';', 1, 1).1 != [slots]
  {
    StatusLineLostAsWritten(id, slots);
    assert SSD.EmptyTable(|slots|)[seat] != slots[seat];
  }

  // ---------------------------------------------------------------------------
  // The office

  /** No two travels of the list share a seat table. */
  predicate DistinctTables(ts: seq<Travel>) {
    forall i, j :: 0 <= i < j < |ts| ==> ts[i].seats != ts[j].seats
  }

  lemma DistinctTablesRemove(ts: seq<Travel>, k: int)
    requires DistinctTables(ts) && 0 <= k < |ts|
    ensures DistinctTables(ts[..k] + ts[k + 1..])
  {
    var us := ts[..k] + ts[k + 1..];
    forall i, j | 0 <= i < j < |us|
      ensures us[i].seats != us[j].seats
    {
      var i' := if i < k then i else i + 1;
      var j' := if j < k then j else j + 1;
      assert us[i] == ts[i'] && us[j] == ts[j'];
    }
  }

  /** Taking out the travel with an id keeps every table distinct and valid. */
  lemma RemoveKeepsTables(ts: seq<Travel>, id: string)
    requires DistinctTables(ts) && forall t :: t in ts ==> t.Valid()
    ensures DistinctTables(RemoveTravel(ts, id))
    ensures forall t :: t in RemoveTravel(ts, id) ==> t in ts
    ensures forall t :: t in RemoveTravel(ts, id) ==> t.Valid()
  {
    RemoveTravelCases(ts, id);
    var k := TravelIndex(ts, id);
    if k >= 0 {
      DistinctTablesRemove(ts, k);
      var rest := ts[..k] + ts[k + 1..];
      assert forall u :: u in rest ==> u in ts;
    }
  }

  /** Taking a travel out and appending one with a table of its own keeps every table distinct and valid. */
  lemma ReplaceKeepsTables(ts: seq<Travel>, id: string, updated: Travel)
    requires DistinctTables(ts) && forall u :: u in ts ==> u.seats != updated.seats
    requires (forall t :: t in ts ==> t.Valid()) && updated.Valid()
    ensures DistinctTables(RemoveTravel(ts, id) + [updated])
    ensures forall t :: t in RemoveTravel(ts, id) + [updated] ==> t.Valid()
  {
    RemoveKeepsTables(ts, id);
    DistinctTablesAppend(RemoveTravel(ts, id), updated);
  }

  lemma DistinctTablesAppend(ts: seq<Travel>, t: Travel)
    requires DistinctTables(ts) && forall u :: u in ts ==> u.seats != t.seats
    ensures DistinctTables(ts + [t])
  {
    var us := ts + [t];
    forall i, j | 0 <= i < j < |us|
      ensures us[i].seats != us[j].seats
    {
      assert us[i] == ts[i];
      if j == |ts| {
        assert us[j] == t;
      } else {
        assert us[j] == ts[j];
      }
    }
  }

  // ---------------------------------------------------------------------------
  // Reading the passenger and travel files

  /**
   * The passengers `readPassengers` adds for the lines of a file, in order:
   * a line that does not parse raises, which ends the reading and keeps the
   * passengers added before it.
   */
  function PassengersOf(lines: seq<string>): (r: (Result<()>, seq<Passenger>))
    ensures |r.1| <= |lines|
    ensures r.0.Ok? ==> |r.1| == |lines|
    decreases |lines|
  {
    if |lines| == 0 then (Ok(()), [])
    else
      var before := PassengersOf(lines[..|lines| - 1]);
      var parsed := MP.ParseLine(lines[|lines| - 1]);
      if before.0.Err? then before
      else if parsed.Err? then (Err(parsed.exc), before.1)
      else (Ok(()), before.1 + [parsed.value])
  }

  /**
   * The travels `readTravels` adds for the lines of a file, as each one's
   * record and seat count, in order; a line that does not parse raises and
   * ends the reading.
   */
  function TravelsOf(lines: seq<string>): (r: (Result<()>, seq<(Record, int)>))
    ensures |r.1| <= |lines|
    ensures r.0.Ok? ==> |r.1| == |lines|
    decreases |lines|
  {
    if |lines| == 0 then (Ok(()), [])
    else
      var before := TravelsOf(lines[..|lines| - 1]);
      var parsed := ParseTravel(lines[|lines| - 1], ',');
      if before.0.Err? then before
      else if parsed.Err? then (Err(parsed.exc), before.1)
      else (Ok(()), before.1 + [parsed.value])
  }

  /** A passenger that `savePassengers` writes reads back. */
  predicate Restorable(p: Passenger) {
    CommaFree(p) && p.surname != ""
  }

  /**
   * The file `savePassengers` writes reads back, through `readPassengers`,
   * as the same passengers in the same order, when each passenger's fields
   * are free of commas and the surname is not empty.
   */
  lemma {:induction false} PassengersFileReadsBack(ps: seq<Passenger>)
    requires forall i :: 0 <= i < |ps| ==> Restorable(ps[i])
    ensures PassengersOf(PassengerLines(ps)) == (Ok(()), ps)
    decreases |ps|
  {
    if |ps| > 0 {
      var n := |ps| - 1;
      var lines := PassengerLines(ps);
      assert lines[..n] == PassengerLines(ps[..n]);
      PassengersFileReadsBack(ps[..n]);
      assert MP.SaveLines(ps[n])[0] == lines[n];
      assert ps[..n] + [ps[n]] == ps;
    }
  }

  /** One more line that parses adds its passenger. */
  lemma PassengersStep(lines: seq<string>, i: nat)
    requires i < |lines| && PassengersOf(lines[..i]).0.Ok? && MP.ParseLine(lines[i]).Ok?
    ensures PassengersOf(lines[..i + 1]) == (Ok(()), PassengersOf(lines[..i]).1 + [MP.ParseLine(lines[i]).value])
  {
    assert lines[..i + 1][..i] == lines[..i];
  }

  /** One more travel line that parses adds its record and seat count. */
  lemma TravelsStep(lines: seq<string>, i: nat)
    requires i < |lines| && TravelsOf(lines[..i]).0.Ok? && ParseTravel(lines[i], ',').Ok?
    ensures TravelsOf(lines[..i + 1]) == (Ok(()), TravelsOf(lines[..i]).1 + [ParseTravel(lines[i], ',').value])
  {
    assert lines[..i + 1][..i] == lines[..i];
  }

  /** After the first line that does not parse, the reading has stopped. */
  lemma ReadingStops(lines: seq<string>, i: nat)
    requires i < |lines| && PassengersOf(lines[..i]).0.Ok? && MP.ParseLine(lines[i]).Err?
    ensures PassengersOf(lines) == (Err(MP.ParseLine(lines[i]).exc), PassengersOf(lines[..i]).1)
  {
    assert lines[..i + 1][..i] == lines[..i];
    PassengersStop(lines, i + 1);
  }

  /** Once the reading has failed, later lines change nothing. */
  lemma {:induction false} PassengersStop(lines: seq<string>, n: nat)
    requires 1 <= n <= |lines| && PassengersOf(lines[..n]).0.Err?
    ensures PassengersOf(lines) == PassengersOf(lines[..n])
    decreases |lines| - n
  {
    if n < |lines| {
      assert lines[..n + 1][..n] == lines[..n];
      PassengersStop(lines, n + 1);
    } else {
      assert lines[..n] == lines;
    }
  }

  /** After the first travel line that does not parse, the reading has stopped. */
  lemma TravelReadingStops(lines: seq<string>, i: nat)
    requires i < |lines| && TravelsOf(lines[..i]).0.Ok? && ParseTravel(lines[i], ',').Err?
    ensures TravelsOf(lines) == (Err(ParseTravel(lines[i], ',').exc), TravelsOf(lines[..i]).1)
  {
    assert lines[..i + 1][..i] == lines[..i];
    TravelsStop(lines, i + 1);
  }

  /** Once the travel reading has failed, later lines change nothing. */
  lemma {:induction false} TravelsStop(lines: seq<string>, n: nat)
    requires 1 <= n <= |lines| && TravelsOf(lines[..n]).0.Err?
    ensures TravelsOf(lines) == TravelsOf(lines[..n])
    decreases |lines| - n
  {
    if n < |lines| {
      assert lines[..n + 1][..n] == lines[..n];
      TravelsStop(lines, n + 1);
    } else {
      assert lines[..n] == lines;
    }
  }

  class Office {
    var passengers: seq<Passenger>
    var travels: seq<Travel>

    /** The seat tables of the stored travels. */
    ghost function Tables(): set<object>
      reads this
    {
      set t | t in travels :: t.seats
    }

    /** The pairs in those tables. */
    ghost function Pairs(): set<object>
      reads this, Tables()
    {
      set t, p | t in travels && p in t.Occupants() :: p
    }

    /** Every stored travel has its own table, in the shape its constructor gave it. */
    ghost predicate Valid()
      reads this, Tables(), Pairs()
    {
      DistinctTables(travels) && forall t :: t in travels ==> t.Valid()
    }

    /** The tables of the stored travels, in list order. */
    ghost function Views(): (vs: seq<seq<Option<string>>>)
      reads this, Tables(), Pairs()
      ensures |vs| == |travels|
    {
      seq(|travels|, i reads this, Tables(), Pairs() requires 0 <= i < |travels| => travels[i].View())
    }

    function Ids(): (ids: seq<string>)
      reads this
      ensures |ids| == |travels| && forall i :: 0 <= i < |travels| ==> ids[i] == travels[i].record.id
    {
      seq(|travels|, i reads this requires 0 <= i < |travels| => travels[i].record.id)
    }

    /** `new Office()`: both lists empty. */
    constructor ()
      ensures passengers == [] && travels == [] && Valid()
    {
      passengers := [];
      travels := [];
    }

    /** `searchPassenger(dni)`: walks the list and returns the first passenger with the DNI. */
    method SearchPassenger(dni: string) returns (r: Option<Passenger>)
      ensures r == SSD.FindPassenger(passengers, dni)
    {
      var i := 0;
      while i < |passengers|
        invariant 0 <= i <= |passengers|
        invariant SSD.FindPassenger(passengers, dni) == SSD.FindPassenger(passengers[i..], dni)
      {
        if passengers[i].dni == dni {
          return Some(passengers[i]);
        }
        assert passengers[i..][1..] == passengers[i + 1..];
        i := i + 1;
      }
      return None;
    }

    /** `searchTravel(id)`: walks the list and returns the first travel with the id. */
    method SearchTravel(id: string) returns (r: Option<Travel>)
      ensures r == FindTravel(travels, id)
    {
      var i := 0;
      while i < |travels|
        invariant 0 <= i <= |travels|
        invariant FindTravel(travels, id) == FindTravel(travels[i..], id)
      {
        if travels[i].record.id == id {
          return Some(travels[i]);
        }
        assert travels[i..][1..] == travels[i + 1..];
        i := i + 1;
      }
      return None;
    }

    /** `addPassenger`: appends a passenger whose DNI is new. */
    method AddPassenger(p: Passenger) returns (r: bool)
      modifies this
      ensures r <==> SSD.FindPassenger(old(passengers), p.dni).None?
      ensures passengers == if r then old(passengers) + [p] else old(passengers)
      ensures travels == old(travels)
    {
      var found := SearchPassenger(p.dni);
      if found.None? {
        passengers := passengers + [p];
        return true;
      }
      return false;
    }

    /** `addTravel`: appends a travel whose id is new. */
    method AddTravel(t: Travel) returns (r: bool)
      requires Valid() && t.Valid()
      requires forall u :: u in travels ==> u.seats != t.seats || u == t
      modifies this
      ensures Valid()
      ensures r <==> FindTravel(old(travels), t.record.id).None?
      ensures travels == if r then old(travels) + [t] else old(travels)
      ensures passengers == old(passengers)
    {
      var found := SearchTravel(t.record.id);
      if found.None? {
        assert t !in travels;
        DistinctTablesAppend(travels, t);
        travels := travels + [t];
        return true;
      }
      return false;
    }

    /** `deletePassenger`: removes the first passenger with the DNI, if any. */
    method DeletePassenger(p: Passenger)
      modifies this
      ensures passengers == RemovePassenger(old(passengers), p.dni)
      ensures travels == old(travels)
    {
      passengers := RemovePassenger(passengers, p.dni);
    }

    /** `deleteTravel`: removes the first travel with the id, if any. */
    method DeleteTravel(t: Travel)
      requires Valid()
      modifies this
      ensures Valid()
      ensures travels == RemoveTravel(old(travels), t.record.id)
      ensures passengers == old(passengers)
    {
      RemoveKeepsTables(travels, t.record.id);
      travels := RemoveTravel(travels, t.record.id);
    }

    /** `modifyPassenger`: the first passenger with the DNI is removed and the update appended. */
    method ModifyPassenger(dni: string, updated: Passenger) returns (r: bool)
      modifies this
      ensures r <==> SSD.FindPassenger(old(passengers), dni).Some?
      ensures passengers == if r then RemovePassenger(old(passengers), dni) + [updated] else old(passengers)
      ensures travels == old(travels)
    {
      var found := SearchPassenger(dni);
      if found.Some? {
        var again := SearchPassenger(dni);
        passengers := RemovePassenger(passengers, again.value.dni);
        passengers := passengers + [updated];
        return true;
      }
      return false;
    }

    /** `modifyTravel`: the first travel with the id is removed and the update appended. */
    method ModifyTravel(id: string, updated: Travel) returns (r: bool)
      requires Valid() && updated.Valid()
      requires forall u :: u in travels ==> u.seats != updated.seats
      modifies this
      ensures Valid()
      ensures r <==> FindTravel(old(travels), id).Some?
      ensures travels == if r then RemoveTravel(old(travels), id) + [updated] else old(travels)
      ensures passengers == old(passengers)
    {
      var found := SearchTravel(id);
      if found.Some? {
        var again := SearchTravel(id);
        ReplaceKeepsTables(travels, again.value.record.id, updated);
        travels := RemoveTravel(travels, again.value.record.id);
        travels := travels + [updated];
        return true;
      }
      return false;
    }

    /** `listPassengers()`: one `toString()` line and a newline per passenger, in list order. */
    method ListPassengers() returns (s: string)
      ensures s == TerminatedBy(PassengerLines(passengers), '\n')
    {
      s := "";
      var i := 0;
      while i < |passengers|
        invariant 0 <= i <= |passengers|
        invariant s == TerminatedBy(PassengerLines(passengers[..i]), '\n')
      {
        assert PassengerLines(passengers[..i + 1])[..i] == PassengerLines(passengers[..i]);
        s := s + ToString(passengers[i]) + "\n";
        i := i + 1;
      }
      assert passengers[..i] == passengers;
    }

    /** `listTravels()`: one `toString()` line and a newline per travel, in list order. */
    method ListTravels() returns (s: string)
      ensures s == TerminatedBy(TravelLines(travels), '\n')
    {
      s := "";
      var i := 0;
      while i < |travels|
        invariant 0 <= i <= |travels|
        invariant s == TerminatedBy(TravelLines(travels[..i]), '\n')
      {
        assert TravelLines(travels[..i + 1])[..i] == TravelLines(travels[..i]);
        s := s + travels[i].ToString() + "\n";
        i := i + 1;
      }
      assert travels[..i] == travels;
    }

    /** `savePassengers(file)`: each passenger prints its `toString()` line, so the file holds the listing's lines. */
    method SavePassengers() returns (lines: seq<string>)
      ensures lines == PassengerLines(passengers)
    {
      lines := [];
      for i := 0 to |passengers|
        invariant |lines| == i
        invariant forall k :: 0 <= k < i ==> lines[k] == ToString(passengers[k])
      {
        var line := MP.SaveLines(passengers[i]);
        lines := lines + line;
      }
    }

    /** `saveTravels(file)`: each travel prints its `save` line, in list order. */
    method SaveTravels() returns (lines: seq<string>)
      ensures |lines| == |travels|
      ensures forall k :: 0 <= k < |travels| ==> lines[k] == SaveLine(travels[k].record, ',')
    {
      lines := [];
      for i := 0 to |travels|
        invariant |lines| == i
        invariant forall k :: 0 <= k < i ==> lines[k] == SaveLine(travels[k].record, ',')
      {
        var line := travels[i].SaveLines();
        lines := lines + line;
      }
    }

    /** `saveTravelsStatus(file)`: each travel prints its status line, separated by commas, in list order. */
    method SaveTravelsStatus() returns (lines: seq<string>)
      requires Valid()
      ensures |lines| == |travels|
      ensures forall k :: 0 <= k < |travels| ==> lines[k] == StatusLineBy(travels[k].record.id, travels[k].View(), ',')
    {
      ghost var views := Views();
      lines := [];
      for i := 0 to |travels|
        invariant forall k :: 0 <= k < |travels| ==> travels[k].View() == views[k] && travels[k].Valid()
        invariant |lines| == i
        invariant forall k :: 0 <= k < i ==> lines[k] == StatusLineBy(travels[k].record.id, views[k], ',')
      {
        var line := travels[i].SaveTravelStatus();
        lines := lines + [line];
      }
    }

    /** `readPassengers(file)` over the lines of the file: each line becomes a passenger appended to the list. */
    method ReadPassengers(lines: seq<string>) returns (r: Result<()>)
      modifies this
      ensures (r, passengers) == (PassengersOf(lines).0, old(passengers) + PassengersOf(lines).1)
      ensures travels == old(travels)
    {
      var i := 0;
      while i < |lines|
        invariant 0 <= i <= |lines|
        invariant PassengersOf(lines[..i]).0.Ok?
        invariant passengers == old(passengers) + PassengersOf(lines[..i]).1
        invariant travels == old(travels)
      {
        var p := MP.ParseLine(lines[i]);
        if p.Err? {
          ReadingStops(lines, i);
          return Err(p.exc);
        }
        PassengersStep(lines, i);
        passengers := passengers + [p.value];
        i := i + 1;
      }
      assert lines[..i] == lines;
      r := Ok(());
    }

    /**
     * `readTravels(file)` over the lines of the file: each line becomes a
     * travel with a fresh, empty seat table, appended to the list.
     */
    method ReadTravels(lines: seq<string>) returns (r: Result<()>)
      requires Valid()
      modifies this
      ensures Valid() && passengers == old(passengers)
      ensures r == TravelsOf(lines).0
      ensures |old(travels)| <= |travels| && travels[..|old(travels)|] == old(travels)
      ensures TravelsRead(travels[|old(travels)|..], TravelsOf(lines).1)
      ensures fresh(TablesOf(travels[|old(travels)|..]))
      ensures forall k :: |old(travels)| <= k < |travels| ==> travels[k].Empty()
    {
      var added;
      r, added := NewTravels(lines);
      forall k | 0 <= k < |added|
        ensures added[k].Valid() && added[k].Empty()
      {
        EmptyValid(added[k]);
      }
      forall u, k | u in travels && 0 <= k < |added|
        ensures u.seats != added[k].seats
      {
        assert added[k].seats in TablesOf(added);
      }
      AppendAll(added);
      assert travels[|old(travels)|..] == added;
    }

    /** The travels read appended to the list, all with tables of their own. */
    method AppendAll(ts: seq<Travel>)
      requires Valid() && DistinctTables(ts) && forall k :: 0 <= k < |ts| ==> ts[k].Valid()
      requires forall u, k :: u in travels && 0 <= k < |ts| ==> u.seats != ts[k].seats
      modifies this
      ensures Valid() && travels == old(travels) + ts && passengers == old(passengers)
    {
      DistinctTablesConcat(travels, ts);
      travels := travels + ts;
      assert forall t :: t in travels ==> t in old(travels) || t in ts;
    }

    /**
     * The first two readings of the loading constructor, on empty lists:
     * the travels, then, when they all parse, the passengers; every table
     * read is fresh and empty.
     */
    method ReadLists(passengerLines: seq<string>, travelLines: seq<string>) returns (r: Result<()>)
      requires Valid() && passengers == [] && travels == []
      modifies this
      ensures Valid()
      ensures TravelsRead(travels, TravelsOf(travelLines).1)
      ensures fresh(TablesOf(travels)) && forall k :: 0 <= k < |travels| ==> travels[k].Empty()
      ensures passengers == if TravelsOf(travelLines).0.Err? then [] else PassengersOf(passengerLines).1
      ensures r == if TravelsOf(travelLines).0.Err? then TravelsOf(travelLines).0 else PassengersOf(passengerLines).0
    {
      r := ReadTravels(travelLines);
      assert travels[0..] == travels;
      if r.Err? {
        return;
      }
      r := ReadPassengers(passengerLines);
    }

    /** The line offered to the travel at position `i`: only that travel's table changes. */
    method ReadTravelAt(i: nat, tokens: seq<string>) returns (r: Result<()>)
      requires Valid() && i < |travels|
      modifies travels[i].seats
      ensures Valid()
      ensures (r, Views()[i]) == ApplyToTravel(old(Views())[i], travels[i].record.id, tokens)
      ensures Views() == old(Views())[i := Views()[i]]
    {
      ghost var before := Views();
      var t := travels[i];
      label Before:
      r := ReadTravelTokens(t, tokens);
      forall j | 0 <= j < |travels| && j != i
        ensures travels[j].View() == before[j] && travels[j].Valid()
      {
        assert travels[j].seats != t.seats;
        assert old@Before(travels[j].Valid());
      }
      assert Views() == before[i := t.View()];
    }

    /**
     * The body of the loop over the travels in `readTravelsStatus`: the
     * split line is offered to each stored travel in list order; the first
     * exception ends the reading.
     */
    method ReadStatusTokens(tokens: seq<string>) returns (r: Result<()>)
      requires Valid()
      modifies Tables()
      ensures Valid()
      ensures (r, Views()) == ApplyToTravels(old(Views()), Ids(), tokens, |travels|)
    {
      ghost var v0, ids := Views(), Ids();
      var i := 0;
      while i < |travels|
        invariant 0 <= i <= |travels| && Valid() && Ids() == ids
        invariant ApplyToTravels(v0, ids, tokens, i) == (Ok(()), Views())
      {
        r := ReadTravelStep(v0, ids, tokens, i);
        if r.Err? {
          return;
        }
        i := i + 1;
      }
      r := Ok(());
    }

    /** The line offered to travel `i`, after the travels before it. */
    method ReadTravelStep(ghost v0: seq<seq<Option<string>>>, ghost ids: seq<string>, tokens: seq<string>, i: nat)
      returns (r: Result<()>)
      requires Valid() && i < |travels| && |v0| == |travels| && Ids() == ids
      requires ApplyToTravels(v0, ids, tokens, i) == (Ok(()), Views())
      modifies Tables()
      ensures Valid() && Ids() == ids
      ensures r.Ok? ==> ApplyToTravels(v0, ids, tokens, i + 1) == (Ok(()), Views())
      ensures r.Err? ==> ApplyToTravels(v0, ids, tokens, |travels|) == (r, Views())
    {
      ghost var cur := Views();
      r := ReadTravelAt(i, tokens);
      ApplyToTravelsNext(v0, ids, tokens, |travels|, i, cur, r, Views());
    }

    /**
     * `readTravelsStatus(file)` over the lines of the file: each line is
     * split on `;` and offered to every stored travel.
     */
    method ReadTravelsStatus(lines: seq<string>) returns (r: Result<()>)
      requires Valid()
      modifies Tables()
      ensures Valid()
      ensures (r, Views()) == ApplyLines(old(Views()), Ids(), lines, ';', |travels|, |lines|)
    {
      ghost var v0 := Views();
      var n := 0;
      while n < |lines|
        invariant 0 <= n <= |lines| && Valid()
        invariant (Ok(()), Views()) == ApplyLines(v0, Ids(), lines, ';', |travels|, n)
      {
        ghost var cur := Views();
        r := ReadStatusTokens(Split(lines[n], ';'));
        ApplyLinesNext(v0, Ids(), lines, ';', |travels|, n, cur, r, Views());
        if r.Err? {
          return;
        }
        n := n + 1;
      }
      r := Ok(());
    }
  }

  /** The empty tables of travels read from a file, one slot more than each one's seat count. */
  function EmptyViews(ts: seq<(Record, int)>): (vs: seq<seq<Option<string>>>)
    ensures |vs| == |ts| && forall k :: 0 <= k < |ts| ==> vs[k] == SSD.EmptyTable(Clamp(ts[k].1 + 1))
  {
    seq(|ts|, k requires 0 <= k < |ts| => SSD.EmptyTable(Clamp(ts[k].1 + 1)))
  }

  /** The travels are, in order, those with the records and seat counts read. */
  predicate TravelsRead(ts: seq<Travel>, read: seq<(Record, int)>) {
    |ts| == |read| && forall k :: 0 <= k < |ts| ==> (ts[k].record, ts[k].seatsNumber) == read[k]
  }

  lemma TravelsReadSnoc(ts: seq<Travel>, read: seq<(Record, int)>, t: Travel)
    requires TravelsRead(ts, read)
    ensures TravelsRead(ts + [t], read + [(t.record, t.seatsNumber)])
  {
  }

  /** Appending travels with tables of their own to a list keeps every table distinct. */
  lemma DistinctTablesConcat(ts: seq<Travel>, us: seq<Travel>)
    requires DistinctTables(ts) && DistinctTables(us)
    requires forall u, k :: u in ts && 0 <= k < |us| ==> u.seats != us[k].seats
    ensures DistinctTables(ts + us)
  {
    var all := ts + us;
    forall i, j | 0 <= i < j < |all|
      ensures all[i].seats != all[j].seats
    {
      if j < |ts| {
        assert all[i] == ts[i] && all[j] == ts[j];
      } else if i < |ts| {
        assert all[i] == ts[i] && all[j] == us[j - |ts|];
      } else {
        assert all[i] == us[i - |ts|] && all[j] == us[j - |ts|];
      }
    }
  }

  /** Travels just read, with every slot empty: their tables are the empty tables of their sizes. */
  lemma TablesEmpty(ts: seq<Travel>, read: seq<(Record, int)>)
    requires |ts| == |read|
    requires forall k :: 0 <= k < |ts| ==> ts[k].Valid() && ts[k].seatsNumber == read[k].1
    requires forall k :: 0 <= k < |ts| ==> ts[k].Empty()
    ensures forall k :: 0 <= k < |ts| ==> ts[k].View() == EmptyViews(read)[k]
  {
  }

  /** The seat tables of the travels. */
  function TablesOf(ts: seq<Travel>): set<object> {
    set t | t in ts :: t.seats
  }

  lemma TablesOfSnoc(ts: seq<Travel>, t: Travel)
    ensures TablesOf(ts + [t]) == TablesOf(ts) + {t.seats}
  {
    assert forall u :: u in ts + [t] <==> u in ts || u == t;
  }

  /** A table of the allocated size with every slot empty is in the shape the constructor gives. */
  lemma EmptyValid(t: Travel)
    requires t.Blank()
    ensures t.Valid() && t.Empty()
  {
  }

  /**
   * The loop of `readTravels`: each line becomes a travel with a fresh,
   * empty table; the first line that does not parse raises, and the travels
   * made before it are kept.
   */
  method NewTravels(lines: seq<string>) returns (r: Result<()>, added: seq<Travel>)
    ensures r == TravelsOf(lines).0 && TravelsRead(added, TravelsOf(lines).1) && DistinctTables(added)
    ensures forall k :: 0 <= k < |added| ==> added[k].Blank()
    ensures fresh(TablesOf(added))
  {
    added := [];
    var i := 0;
    while i < |lines|
      invariant 0 <= i <= |lines|
      invariant TravelsOf(lines[..i]).0.Ok? && TravelsRead(added, TravelsOf(lines[..i]).1) && DistinctTables(added)
      invariant forall k :: 0 <= k < |added| ==> added[k].Blank()
      invariant fresh(TablesOf(added))
    {
      var t := ReadTravelLine(lines, i, added);
      if t.Err? {
        return Err(t.exc), added;
      }
      TablesOfSnoc(added, t.value);
      added := added + [t.value];
      i := i + 1;
    }
    assert lines[..i] == lines;
    r := Ok(());
  }

  /** `new Travel(lines[i])` after the travels read before it: a failure ends the reading. */
  method ReadTravelLine(lines: seq<string>, i: nat, added: seq<Travel>) returns (r: Result<Travel>)
    requires i < |lines| && TravelsOf(lines[..i]).0.Ok? && TravelsRead(added, TravelsOf(lines[..i]).1) && DistinctTables(added)
    ensures r.Err? ==> TravelsOf(lines).0 == Err(r.exc) && TravelsRead(added, TravelsOf(lines).1)
    ensures r.Ok? ==> TravelsOf(lines[..i + 1]).0.Ok? && TravelsRead(added + [r.value], TravelsOf(lines[..i + 1]).1)
    ensures r.Ok? ==> DistinctTables(added + [r.value])
    ensures r.Ok? ==> fresh(r.value.seats) && r.value.Blank()
  {
    r := NewTravel(lines[i]);
    if r.Err? {
      TravelReadingStops(lines, i);
      return;
    }
    TravelsStep(lines, i);
    TravelsReadSnoc(added, TravelsOf(lines[..i]).1, r.value);
    DistinctTablesAppend(added, r.value);
  }

  /**
   * `new Office(passengersFile, travelsFile, travelsStatusFile)` over the
   * lines of the three files: both lists emptied, then the travels read,
   * then the passengers, then the seat statuses; an exception in one
   * reading ends the construction.
   */
  method Open(passengerLines: seq<string>, travelLines: seq<string>, statusLines: seq<string>)
    returns (office: Office, r: Result<()>)
    ensures fresh(office) && office.Valid()
    ensures |office.travels| == |TravelsOf(travelLines).1|
    ensures forall k :: 0 <= k < |office.travels| ==>
      (office.travels[k].record, office.travels[k].seatsNumber) == TravelsOf(travelLines).1[k]
    ensures office.passengers == if TravelsOf(travelLines).0.Err? then [] else PassengersOf(passengerLines).1
    ensures TravelsOf(travelLines).0.Err? ==> r == TravelsOf(travelLines).0
    ensures TravelsOf(travelLines).0.Ok? && PassengersOf(passengerLines).0.Err? ==> r == PassengersOf(passengerLines).0
    ensures TravelsOf(travelLines).0.Err? || PassengersOf(passengerLines).0.Err? ==>
      office.Views() == EmptyViews(TravelsOf(travelLines).1)
    ensures TravelsOf(travelLines).0.Ok? && PassengersOf(passengerLines).0.Ok? ==>
      (r, office.Views()) == ApplyLines(EmptyViews(TravelsOf(travelLines).1), office.Ids(), statusLines, ';',
        |office.travels|, |statusLines|)
  {
    office := new Office();
    r := office.ReadLists(passengerLines, travelLines);
    ghost var read := TravelsOf(travelLines).1;
    TablesEmpty(office.travels, read);
    assert office.Views() == EmptyViews(read);
    assert office.Tables() == TablesOf(office.travels);
    if r.Ok? {
      r := office.ReadTravelsStatus(statusLines);
    }
  }

  /**
   * The innermost loops of `readTravelsStatus` for one travel: element 0 of
   * the line must exist; when it is the travel's id, each later element is
   * read into the table.
   */
  method ReadTravelTokens(t: Travel, tokens: seq<string>) returns (r: Result<()>)
    requires t.Valid()
    modifies t.seats
    ensures t.Valid()
    ensures (r, t.View()) == ApplyToTravel(old(t.View()), t.record.id, tokens)
  {
    if |tokens| == 0 {
      return Err(IndexOutOfBounds);
    }
    if tokens[0] != t.record.id {
      return Ok(());
    }
    ghost var v0 := t.View();
    ApplyToTravelEntries(v0, t.record.id, tokens);
    var k := 1;
    while k < |tokens|
      invariant 1 <= k <= |tokens| && t.Valid()
      invariant (Ok(()), t.View()) == ApplyEntries(v0, tokens[1..k])
    {
      ApplyTokensStep(v0, tokens, k, t.View());
      r := ReadElement(t, tokens[k]);
      if r.Err? {
        ApplyTokensStop(v0, tokens, k);
        return;
      }
      k := k + 1;
    }
    r := Ok(());
  }

  /** One element `seat-dni`: `Integer.parseInt(elements[0])`, then `elements[1]`, then `assignSeat`. */
  method ReadElement(t: Travel, element: string) returns (r: Result<()>)
    requires t.Valid()
    modifies t.seats
    ensures t.Valid()
    ensures (r, t.View()) == ApplyEntry(old(t.View()), element)
  {
    var elements := Split(element, '-');
    var seat := IntToken(elements, 0);
    if seat.Err? {
      return Err(seat.exc);
    }
    var dni := Token(elements, 1);
    if dni.Err? {
      return Err(dni.exc);
    }
    var stored := t.AssignSeat(seat.value, dni.value);
    if stored.Err? {
      return Err(stored.exc);
    }
    r := Ok(());
  }

  /** `assignSeat(travel, passenger, seat)`: assigns only a seat `isSeatFree` reports free. */
  method AssignSeat(travel: Travel, p: Passenger, seat: int) returns (r: Result<bool>)
    requires travel.Valid()
    modifies travel.seats
    ensures travel.Valid()
    ensures (r, travel.View()) == SSD.AssignSeatIn(old(travel.View()), travel.seatsNumber, seat, p.dni)
  {
    var free := travel.IsSeatFree(seat);
    if free.Err? {
      return Err(free.exc);
    }
    if free.value {
      r := travel.AssignSeat(seat, p.dni);
    } else {
      r := Ok(false);
    }
  }

  /** `unassignSeat(travel, seat)`: empties the seat, whatever it held. */
  method UnassignSeat(travel: Travel, seat: int) returns (r: Result<()>)
    requires travel.Valid()
    modifies travel.seats
    ensures travel.Valid()
    ensures (r, travel.View()) == UnassignIn(old(travel.View()), seat)
  {
    r := travel.UnassignSeat(seat);
  }

  /** `whoIsSited(travel, seat)`: null for a free seat, otherwise the stored passenger with the seated DNI, or null. */
  method WhoIsSited(office: Office, travel: Travel, seat: int) returns (r: Result<Option<Passenger>>)
    requires travel.Valid()
    ensures r == match ST.WhoIsSitedIn(travel.View(), travel.seatsNumber, seat)
      case Err(e) => Err(e)
      case Ok(dni) => if dni.None? then Ok(None) else Ok(SSD.FindPassenger(office.passengers, dni.value))
  {
    var dni := travel.WhoIsSited(seat);
    if dni.Err? {
      return Err(dni.exc);
    }
    if dni.value.None? {
      return Ok(None);
    }
    var found := office.SearchPassenger(dni.value.value);
    return Ok(found);
  }

  /** For the seats the plan draws, from 1 up, `isSeatFree` answers whether the seat is free. */
  lemma IsSeatFreeOnPlan(slots: seq<Option<string>>, seatsNumber: int, seat: int)
    requires |slots| == seatsNumber + 1 && seat >= 1
    ensures (ST.IsSeatFreeIn(slots, seatsNumber, seat) == Ok(true)) == SeatFree(slots, seatsNumber, seat)
  {
  }

  /** One more seat at the end of a row. */
  lemma CellStep(slots: seq<Option<string>>, seatsNumber: int, first: int, j: nat, head: string)
    requires j >= 1
    ensures head + RowCells(slots, seatsNumber, first, j) ==
      head + RowCells(slots, seatsNumber, first, j - 1) + SeatCell(SeatFree(slots, seatsNumber, first + j - 1), first + j - 1, j)
  {
    ConcatAssoc(head, RowCells(slots, seatsNumber, first, j - 1),
      SeatCell(SeatFree(slots, seatsNumber, first + j - 1), first + j - 1, j));
  }

  /** One more row at the end of the plan. */
  lemma RowStep(slots: seq<Option<string>>, seatsNumber: int, perRow: nat, i: nat)
    ensures PlanHeader + "\n" + TerminatedBy(RowTexts(slots, seatsNumber, perRow, i + 1), '\n') ==
      PlanHeader + "\n" + TerminatedBy(RowTexts(slots, seatsNumber, perRow, i), '\n') + RowText(slots, seatsNumber, perRow, i) + "\n"
  {
    var texts := RowTexts(slots, seatsNumber, perRow, i + 1);
    assert texts[..i] == RowTexts(slots, seatsNumber, perRow, i);
    var before := TerminatedBy(RowTexts(slots, seatsNumber, perRow, i), '\n');
    var row := RowText(slots, seatsNumber, perRow, i);
    assert TerminatedBy(texts, '\n') == before + row + "\n";
    ConcatAssoc(before, row, "\n");
    ConcatAssoc(PlanHeader + "\n", before, row + "\n");
    ConcatAssoc(PlanHeader + "\n" + before, row, "\n");
  }

  lemma NextRowFirstSeat(i: nat, width: nat)
    ensures 1 + i * width >= 1
    ensures 1 + (i + 1) * width == 1 + i * width + width
  {
  }

  lemma PlanStep(slots: seq<Option<string>>, seatsNumber: int, width: nat, i: nat, plan: string, line: string)
    requires plan == PlanHeader + "\n" + TerminatedBy(RowTexts(slots, seatsNumber, width, i), '\n')
    requires line == Pad2(i + 1) + " " + "| " + RowCells(slots, seatsNumber, 1 + i * width, width)
    ensures plan + line + "\n" == PlanHeader + "\n" + TerminatedBy(RowTexts(slots, seatsNumber, width, i + 1), '\n')
  {
    RowStep(slots, seatsNumber, width, i);
  }

  /** `seatsStatus(travel)`: the two parts of the distribution, then the plan. */
  method SeatsStatus(travel: Travel) returns (r: Result<string>)
    requires travel.Valid()
    ensures r == SeatsStatusOf(travel.record.distribution, travel.View(), travel.seatsNumber)
  {
    var parts := Split(travel.record.distribution, 'x');
    var perRow := IntToken(parts, 0);
    if perRow.Err? {
      return Err(perRow.exc);
    }
    var rows := IntToken(parts, 1);
    if rows.Err? {
      return Err(rows.exc);
    }
    var plan := DrawPlan(travel, perRow.value, rows.value);
    return Ok(plan);
  }

  /** The outer drawing loop of `seatsStatus`: one line per row. */
  method DrawPlan(travel: Travel, perRow: int, rows: int) returns (plan: string)
    requires travel.Valid()
    ensures plan == Plan(travel.View(), travel.seatsNumber, perRow, rows)
  {
    ghost var slots := travel.View();
    ghost var width := Clamp(perRow);
    plan := PlanHeader + "\n";
    var indexSeats := 1;
    var i := 0;
    while i < rows
      invariant 0 <= i <= Clamp(rows)
      invariant indexSeats == 1 + i * width
      invariant plan == PlanHeader + "\n" + TerminatedBy(RowTexts(slots, travel.seatsNumber, width, i), '\n')
      invariant travel.View() == slots
    {
      NextRowFirstSeat(i, width);
      var line;
      line, indexSeats := DrawRow(travel, slots, i, indexSeats, perRow);
      PlanStep(slots, travel.seatsNumber, width, i, plan, line);
      plan := plan + line + "\n";
      i := i + 1;
    }
    assert i == Clamp(rows);
  }

  /** The inner drawing loop of `seatsStatus`: row `i`, whose first seat is `first`. */
  method DrawRow(travel: Travel, ghost slots: seq<Option<string>>, i: nat, first: int, perRow: int) returns (line: string, next: int)
    requires travel.Valid() && slots == travel.View() && first >= 1
    ensures line == Pad2(i + 1) + " " + "| " + RowCells(slots, travel.seatsNumber, first, Clamp(perRow))
    ensures next == first + Clamp(perRow)
  {
    ghost var head := Pad2(i + 1) + " " + "| ";
    line := Pad2(i + 1) + " " + "| ";
    var indexSeats := first;
    var j := 1;
    while j <= perRow
      invariant 1 <= j <= Clamp(perRow) + 1
      invariant indexSeats == first + (j - 1)
      invariant line == head + RowCells(slots, travel.seatsNumber, first, j - 1)
    {
      var free := travel.IsSeatFree(indexSeats);
      IsSeatFreeOnPlan(slots, travel.seatsNumber, indexSeats);
      CellStep(slots, travel.seatsNumber, first, j, head);
      line := line + SeatCell(free == Ok(true), indexSeats, j);
      indexSeats := indexSeats + 1;
      j := j + 1;
    }
    next := indexSeats;
  }
}

/**
 * The store of the desktop application (`Model.SalesDesk`): a hash set of
 * passengers, a hash set of travels, the seat operations, the seat plan
 * `seatsStatus` draws and the reader of the status file.  The travels are
 * the server's travel objects, which have every seat operation the store
 * calls.  `Passenger` does not override `hashCode`, so the passenger set
 * hashes objects by identity; a passenger is therefore an object here.
 */
module ModelSalesDesk {
  import opened Outcomes
  import opened Text
  import opened ServerPassenger
  import opened ModelTravel
  import ST = ServerTravel
  import SSD = ServerSalesDesk
  import MO = ModelOffice

  /** A `Passenger` object: its fields never change, and the set tells objects apart by identity. */
  class PassengerObject {
    const data: Passenger

    constructor (data: Passenger)
      ensures this.data == data
    {
      this.data := data;
    }
  }

  /** The first passenger object with the DNI, or null. */
  function Find(ps: seq<PassengerObject>, dni: string): (r: Option<PassengerObject>)
    ensures r.Some? ==> r.value in ps && r.value.data.dni == dni
    ensures r.None? <==> forall p :: p in ps ==> p.data.dni != dni
  {
    if |ps| == 0 then None
    else if ps[0].data.dni == dni then Some(ps[0])
    else Find(ps[1..], dni)
  }

  /** `HashSet.remove(p)` with identity hashing: the object `p` itself leaves the set. */
  function Without(ps: seq<PassengerObject>, p: PassengerObject): (r: seq<PassengerObject>)
    ensures forall q :: q in r ==> q in ps && q != p
    ensures forall q :: q in ps && q != p ==> q in r
  {
    if |ps| == 0 then []
    else (if ps[0] == p then [] else [ps[0]]) + Without(ps[1..], p)
  }

  /** Every passenger object whose DNI is not `dni`, in order. */
  function WithoutDni(ps: seq<PassengerObject>, dni: string): (r: seq<PassengerObject>)
    ensures forall q :: q in r ==> q in ps && q.data.dni != dni
    ensures forall q :: q in ps && q.data.dni != dni ==> q in r
  {
    if |ps| == 0 then []
    else (if ps[0].data.dni == dni then [] else [ps[0]]) + WithoutDni(ps[1..], dni)
  }

  /** No two passengers of the store share a DNI, as `addPassenger` keeps it. */
  predicate UniqueDnis(ps: seq<PassengerObject>) {
    forall i, j :: 0 <= i < j < |ps| ==> ps[i].data.dni != ps[j].data.dni
  }

  /**
   * Adding a passenger whose DNI is new keeps the DNIs unique, and a search
   * for that DNI then finds the object just added.
   */
  lemma AddKeepsUnique(ps: seq<PassengerObject>, p: PassengerObject)
    requires UniqueDnis(ps) && Find(ps, p.data.dni).None?
    ensures UniqueDnis(ps + [p])
    ensures Find(ps + [p], p.data.dni) == Some(p)
  {
    FindSnoc(ps, p);
  }

  lemma {:induction false} FindSnoc(ps: seq<PassengerObject>, p: PassengerObject)
    requires Find(ps, p.data.dni).None?
    ensures Find(ps + [p], p.data.dni) == Some(p)
    decreases |ps|
  {
    if |ps| == 0 {
      assert ps + [p] == [p];
    } else {
      assert (ps + [p])[1..] == ps[1..] + [p];
      FindSnoc(ps[1..], p);
    }
  }

  /**
   * `deletePassenger(p)` as written: the search is by DNI but the removal is
   * by identity, so a second object with a stored DNI (a passenger read
   * again from its line, say) is reported deleted while the stored one stays.
   */
  lemma DeleteCopyAsWritten(stored: PassengerObject, copy: PassengerObject)
    requires stored != copy && stored.data.dni == copy.data.dni
    ensures Find([stored], copy.data.dni).Some?
    ensures Without([stored], copy) == [stored]
    ensures Find(Without([stored], copy), copy.data.dni) == Some(stored)
  {
    assert Without([stored], copy) == [stored] + Without([], copy);
  }

  /** After the corrected deletion no passenger with the DNI is left, and every other one is. */
  lemma DeleteRemovesDni(ps: seq<PassengerObject>, dni: string)
    ensures Find(WithoutDni(ps, dni), dni).None?
    ensures forall q :: q in ps && q.data.dni != dni ==> Find(WithoutDni(ps, dni), q.data.dni).Some?
  {
  }

  // ---------------------------------------------------------------------------
  // The seat plan

  /** The column letters of the header. */
  const Designations: seq<string> := ["A", "B", "C", "D", "E", "F"]

  /** Rows above this count have a back door in the middle row. */
  const MinSizeBackDoor := 7

  /**
   * What `seatsStatus` derives from the distribution `AxB`: `cols` = A + 1
   * in 32-bit arithmetic, the corridor column ceil(A / 2) written with
   * Java's truncating `/` and `%`, and `rows` = B.
   */
  datatype Layout = Layout(cols: int, corridor: int, rows: int)

  /** `(a / 2) + (a % 2)` with Java's truncating division. */
  function Corridor(a: int): (c: int)
    ensures a >= 0 ==> c == (a + 1) / 2
  {
    if a >= 0 then a / 2 + a % 2 else -((-a) / 2) - ((-a) % 2)
  }

  /** The distribution split on `x`: element 0 and element 1 parsed, in that order. */
  function LayoutOf(distribution: string): (r: Result<Layout>)
    ensures r.Err? ==> r.exc == IndexOutOfBounds || r.exc == NumberFormat
  {
    var parts := Split(distribution, 'x');
    var a :- IntToken(parts, 0);
    var rows :- IntToken(parts, 1);
    Ok(Layout(Wrap32(a + 1), Corridor(a), rows))
  }

  /** Header cell `i`: a letter right of four underscores, the corridor, or a letter left of them. */
  function HeaderCell(l: Layout, i: int): Result<string> {
    if i < l.corridor then
      (if 0 <= i < |Designations| then Ok("____" + Designations[i]) else Err(IndexOutOfBounds))
    else if i > l.corridor then
      (if 0 <= i - 1 < |Designations| then Ok(Designations[i - 1] + "____") else Err(IndexOutOfBounds))
    else Ok("_________")
  }

  /** The first `n` header cells; the first letter past `F` is an ArrayIndexOutOfBoundsException. */
  function HeaderCells(l: Layout, n: nat): Result<string> {
    if n == 0 then Ok("")
    else
      var cells :- HeaderCells(l, n - 1);
      var cell :- HeaderCell(l, n - 1);
      Ok(cells + cell)
  }

  function Clamp(n: int): nat {
    if n < 0 then 0 else n
  }

  /** What a cell of the seat map is: the corridor, a back-door gap, or a seat. */
  predicate IsCorridor(l: Layout, row: int, col: int) {
    col == l.corridor && row != l.rows - 1
  }

  predicate IsBackDoor(l: Layout, row: int, col: int) {
    row == l.rows / 2 && col > l.corridor && l.rows > MinSizeBackDoor
  }

  /** A seat: `  NN ` when `isSeatFree` holds, ` (NN)` otherwise, NN being `%02d`. */
  function SeatCell(slots: seq<Option<string>>, seatsNumber: int, seat: int): string {
    if ST.IsSeatFreeIn(slots, seatsNumber, seat) == Ok(true) then "  " + Pad2(seat) + " "
    else " (" + Pad2(seat) + ")"
  }

  /** The cell in column `col` when the next seat is numbered `idx`; and the number after it. */
  function Cell(slots: seq<Option<string>>, seatsNumber: int, l: Layout, row: int, col: int, idx: int): (string, int) {
    if IsCorridor(l, row, col) then ("     ", idx)
    else if IsBackDoor(l, row, col) then ("  ", idx)
    else (SeatCell(slots, seatsNumber, idx), idx + 1)
  }

  /** The first `n` cells of row `row`, the first seat being numbered `idx`; and the next seat number. */
  function RowCells(slots: seq<Option<string>>, seatsNumber: int, l: Layout, row: int, n: nat, idx: int): (string, int) {
    if n == 0 then ("", idx)
    else
      var prefix := RowCells(slots, seatsNumber, l, row, n - 1, idx);
      var cell := Cell(slots, seatsNumber, l, row, n - 1, prefix.1);
      (prefix.0 + cell.0, cell.1)
  }

  /** Row `row` without its line break: `_NN_| ` and the cells. */
  function RowText(slots: seq<Option<string>>, seatsNumber: int, l: Layout, row: int, idx: int): (string, int) {
    var (cells, next) := RowCells(slots, seatsNumber, l, row, Clamp(l.cols), idx);
    ("_" + Pad2(row + 1) + "_" + "| " + cells, next)
  }

  /** The first `n` rows, numbered from seat 1 on; and the number after the last seat drawn. */
  function RowTexts(slots: seq<Option<string>>, seatsNumber: int, l: Layout, n: nat): (r: (seq<string>, int))
    ensures |r.0| == n
  {
    if n == 0 then ([], 1)
    else
      var prefix := RowTexts(slots, seatsNumber, l, n - 1);
      var text := RowText(slots, seatsNumber, l, n - 1, prefix.1);
      (prefix.0 + [text.0], text.1)
  }

  /**
   * `seatsStatus(travel)`: the header line, then one line per row.  On a
   * table of the allocated size `isSeatFree` never fails for seats from 1 up.
   */
  function SeatsStatusOf(distribution: string, slots: seq<Option<string>>, seatsNumber: int): Result<string> {
    var l :- LayoutOf(distribution);
    var cells :- HeaderCells(l, Clamp(l.cols));
    Ok("_____" + cells + "\n" + TerminatedBy(RowTexts(slots, seatsNumber, l, Clamp(l.rows)).0, '\n'))
  }

  // --- properties of the plan

  /** Once a header cell fails, the header fails with the same exception. */
  lemma {:induction false} HeaderStops(l: Layout, k: nat, n: nat)
    requires k <= n && HeaderCells(l, k).Err?
    ensures HeaderCells(l, n) == HeaderCells(l, k)
    decreases n
  {
    if n > k {
      HeaderStops(l, k, n - 1);
    }
  }

  /** The header fails exactly when some cell before `n` does. */
  lemma {:induction false} HeaderCellsFail(l: Layout, n: nat)
    ensures HeaderCells(l, n).Err? <==> exists i :: 0 <= i < n && HeaderCell(l, i).Err?
    decreases n
  {
    if n > 0 {
      HeaderCellsFail(l, n - 1);
    }
  }

  /**
   * The header indexes the six letters by column: it is drawn exactly when
   * there are at most six seats per row.  A count of 2147483647 wraps `cols`
   * to a negative number and draws no column at all.
   */
  lemma HeaderInBounds(a: int, rows: int)
    requires InInt32(a)
    ensures HeaderCells(Layout(Wrap32(a + 1), Corridor(a), rows), Clamp(Wrap32(a + 1))).Ok? <==> a <= 6 || a == MaxInt32
  {
    var l := Layout(Wrap32(a + 1), Corridor(a), rows);
    var n := Clamp(Wrap32(a + 1));
    Wrap32Successor(a);
    HeaderCellsFail(l, n);
    if 0 <= a <= 6 {
      forall i | 0 <= i < n
        ensures HeaderCell(l, i).Ok?
      {
      }
    } else if 6 < a < MaxInt32 {
      assert HeaderCell(l, a).Err?;
    }
  }

  /** The cells of a row hold no line break. */
  lemma {:induction false} RowCellsPlain(slots: seq<Option<string>>, seatsNumber: int, l: Layout, row: int, n: nat, idx: int)
    ensures '\n' !in RowCells(slots, seatsNumber, l, row, n, idx).0
    decreases n
  {
    if n > 0 {
      var prefix := RowCells(slots, seatsNumber, l, row, n - 1, idx);
      var cell := Cell(slots, seatsNumber, l, row, n - 1, prefix.1);
      RowCellsPlain(slots, seatsNumber, l, row, n - 1, idx);
      CellPlain(slots, seatsNumber, l, row, n - 1, prefix.1);
      Text.NotInConcat(prefix.0, cell.0, '\n');
    }
  }

  lemma CellPlain(slots: seq<Option<string>>, seatsNumber: int, l: Layout, row: int, col: int, idx: int)
    ensures '\n' !in Cell(slots, seatsNumber, l, row, col, idx).0
  {
    MO.Pad2Plain(idx);
  }

  lemma {:induction false} HeaderCellsPlain(l: Layout, n: nat)
    requires HeaderCells(l, n).Ok?
    ensures '\n' !in HeaderCells(l, n).value
    decreases n
  {
    if n > 0 {
      HeaderCellsPlain(l, n - 1);
      assert forall k :: 0 <= k < |Designations| ==> '\n' !in Designations[k];
    }
  }

  lemma {:induction false} RowTextsPlain(slots: seq<Option<string>>, seatsNumber: int, l: Layout, n: nat)
    ensures forall i :: 0 <= i < n ==> '\n' !in RowTexts(slots, seatsNumber, l, n).0[i]
    decreases n
  {
    if n > 0 {
      RowTextsPlain(slots, seatsNumber, l, n - 1);
      var idx := RowTexts(slots, seatsNumber, l, n - 1).1;
      RowCellsPlain(slots, seatsNumber, l, n - 1, Clamp(l.cols), idx);
      MO.Pad2Plain(n);
    }
  }

  /**
   * A drawn plan is the header line followed by exactly one line per row
   * (and the empty rest after the last line break).
   */
  lemma PlanLines(distribution: string, slots: seq<Option<string>>, seatsNumber: int)
    requires SeatsStatusOf(distribution, slots, seatsNumber).Ok?
    ensures var l := LayoutOf(distribution).value;
      var header := "_____" + HeaderCells(l, Clamp(l.cols)).value;
      Fields(SeatsStatusOf(distribution, slots, seatsNumber).value, '\n') ==
        [header] + RowTexts(slots, seatsNumber, l, Clamp(l.rows)).0 + [""]
  {
    var l := LayoutOf(distribution).value;
    var header := "_____" + HeaderCells(l, Clamp(l.cols)).value;
    var texts := RowTexts(slots, seatsNumber, l, Clamp(l.rows)).0;
    MO.PrependLine(header, texts, '\n');
    HeaderCellsPlain(l, Clamp(l.cols));
    RowTextsPlain(slots, seatsNumber, l, Clamp(l.rows));
    PlanLinesPlain(header, texts);
    MO.ListingLines([header] + texts);
  }

  lemma PlanLinesPlain(header: string, texts: seq<string>)
    requires '\n' !in header && forall i :: 0 <= i < |texts| ==> '\n' !in texts[i]
    ensures forall i :: 0 <= i < |texts| + 1 ==> '\n' !in ([header] + texts)[i]
  {
    forall i | 0 <= i < |texts| + 1
      ensures '\n' !in ([header] + texts)[i]
    {
      if i > 0 {
        assert ([header] + texts)[i] == texts[i - 1];
      }
    }
  }

  /** How many of the first `n` cells of a row are seats. */
  function SeatColumns(l: Layout, row: int, n: nat): nat {
    if n == 0 then 0
    else SeatColumns(l, row, n - 1) + (if IsCorridor(l, row, n - 1) || IsBackDoor(l, row, n - 1) then 0 else 1)
  }

  /** Each seat of a row takes the next number. */
  lemma {:induction false} RowCellsNumbering(slots: seq<Option<string>>, seatsNumber: int, l: Layout, row: int, n: nat, idx: int)
    ensures RowCells(slots, seatsNumber, l, row, n, idx).1 == idx + SeatColumns(l, row, n)
    decreases n
  {
    if n > 0 {
      RowCellsNumbering(slots, seatsNumber, l, row, n - 1, idx);
    }
  }

  /**
   * The seats among the first `n` columns of a row with `a` seats per row:
   * the last row has no corridor; the back-door row keeps only the columns
   * left of the corridor; any other row loses the corridor column.
   */
  lemma {:induction false} SeatColumnsCount(a: nat, rows: int, row: int, n: nat)
    requires 0 <= row < rows && n <= a + 1
    ensures var l := Layout(a + 1, Corridor(a), rows);
      SeatColumns(l, row, n) ==
        if row == rows - 1 then n
        else if row == rows / 2 && rows > MinSizeBackDoor then (if n < Corridor(a) then n else Corridor(a))
        else if n > Corridor(a) then n - 1 else n
    decreases n
  {
    if n > 0 {
      SeatColumnsCount(a, rows, row, n - 1);
    }
  }

  /** Seats in row `row` of a plan with `a` seats per row and `rows` rows. */
  function SeatsInRow(a: nat, rows: int, row: int): int {
    if row == rows - 1 then a + 1
    else if row == rows / 2 && rows > MinSizeBackDoor then Corridor(a)
    else a
  }

  lemma RowSeats(slots: seq<Option<string>>, seatsNumber: int, a: nat, rows: int, row: int, idx: int)
    requires 0 <= row < rows
    ensures RowText(slots, seatsNumber, Layout(a + 1, Corridor(a), rows), row, idx).1 == idx + SeatsInRow(a, rows, row)
  {
    var l := Layout(a + 1, Corridor(a), rows);
    RowCellsNumbering(slots, seatsNumber, l, row, a + 1, idx);
    SeatColumnsCount(a, rows, row, a + 1);
  }

  /** The number after the last seat of the first `n` rows, in closed form. */
  function NextSeat(a: nat, rows: int, n: nat): int {
    1 + n * a + (if 0 < n == rows then 1 else 0) - (if rows > MinSizeBackDoor && n > rows / 2 then a - Corridor(a) else 0)
  }

  lemma NextSeatStep(a: nat, rows: int, n: nat)
    requires 0 < n <= rows
    ensures NextSeat(a, rows, n) == NextSeat(a, rows, n - 1) + SeatsInRow(a, rows, n - 1)
  {
    assert n * a == (n - 1) * a + a;
    if rows > MinSizeBackDoor {
      assert rows / 2 < rows - 1;
    }
  }

  /** The seats drawn in the first `n` rows. */
  lemma {:induction false} RowTextsNumbering(slots: seq<Option<string>>, seatsNumber: int, a: nat, rows: int, n: nat)
    requires n <= rows
    ensures RowTexts(slots, seatsNumber, Layout(a + 1, Corridor(a), rows), n).1 == NextSeat(a, rows, n)
    decreases n
  {
    if n > 0 {
      var l := Layout(a + 1, Corridor(a), rows);
      RowTextsNumbering(slots, seatsNumber, a, rows, n - 1);
      RowSeats(slots, seatsNumber, a, rows, n - 1, RowTexts(slots, seatsNumber, l, n - 1).1);
      NextSeatStep(a, rows, n);
    }
  }

  /**
   * With `A` seats per row and `B` rows the plan numbers its seats from 1
   * up to A * B + 1 (the last row has no corridor); from eight rows on, the
   * back door takes floor(A / 2) of them.
   */
  lemma SeatsDrawn(slots: seq<Option<string>>, seatsNumber: int, a: nat, rows: nat)
    requires a < MaxInt32 && rows >= 1
    ensures var l := Layout(Wrap32(a + 1), Corridor(a), rows);
      RowTexts(slots, seatsNumber, l, rows).1 - 1 == a * rows + 1 - (if rows > MinSizeBackDoor then a / 2 else 0)
  {
    Wrap32Successor(a);
    RowTextsNumbering(slots, seatsNumber, a, rows, rows);
  }

  // ---------------------------------------------------------------------------
  // Reading the status file

  /**
   * One status line offered to the first `n` travels: each travel whose id
   * equals `id` loads the line, and the first exception stops the loop.
   */
  function LoadMatching(tables: seq<seq<Option<string>>>, ids: seq<string>, id: string, line: string, n: nat)
    : (result: (Result<()>, seq<seq<Option<string>>>))
    requires |tables| == |ids| && n <= |ids|
    ensures |result.1| == |tables|
    ensures forall j :: 0 <= j < |tables| && (j >= n || ids[j] != id) ==> result.1[j] == tables[j]
    ensures result.0.Ok? ==> forall j :: 0 <= j < n && ids[j] == id ==>
      SSD.LoadLine(tables[j], line).0.Ok? && SSD.LoadLine(tables[j], line).1 == result.1[j]
    decreases n
  {
    if n == 0 then (Ok(()), tables)
    else
      var prefix := LoadMatching(tables, ids, id, line, n - 1);
      if prefix.0.Err? || ids[n - 1] != id then prefix
      else
        var loaded := SSD.LoadLine(prefix.1[n - 1], line);
        (loaded.0, prefix.1[n - 1 := loaded.1])
  }

  /** Once a travel's load fails, the travels after it are not offered the line. */
  lemma {:induction false} LoadMatchingStops(tables: seq<seq<Option<string>>>, ids: seq<string>, id: string, line: string, k: nat, n: nat)
    requires |tables| == |ids| && k <= n <= |ids| && LoadMatching(tables, ids, id, line, k).0.Err?
    ensures LoadMatching(tables, ids, id, line, n) == LoadMatching(tables, ids, id, line, k)
    decreases n
  {
    if n > k {
      LoadMatchingStops(tables, ids, id, line, k, n - 1);
    }
  }

  lemma ReadStatusStep(tables: seq<seq<Option<string>>>, ids: seq<string>, id: string, line: string, k: nat,
                       mid: seq<seq<Option<string>>>)
    requires |tables| == |ids| && k < |ids|
    requires LoadMatching(tables, ids, id, line, k) == (Ok(()), mid)
    ensures ids[k] != id ==> LoadMatching(tables, ids, id, line, k + 1) == (Ok(()), mid)
    ensures ids[k] == id ==>
      LoadMatching(tables, ids, id, line, k + 1) == (SSD.LoadLine(mid[k], line).0, mid[k := SSD.LoadLine(mid[k], line).1])
  {
  }

  /** `readTravelsStatus` for one line: its first `,`-field picks the travels. */
  function ApplyLine(tables: seq<seq<Option<string>>>, ids: seq<string>, line: string)
    : (result: (Result<()>, seq<seq<Option<string>>>))
    requires |tables| == |ids|
    ensures |result.1| == |tables|
  {
    var fields := Split(line, ',');
    if |fields| == 0 then (Err(IndexOutOfBounds), tables)
    else LoadMatching(tables, ids, fields[0], line, |ids|)
  }

  /** `readTravelsStatus`: the lines in order; the first exception stops the reading. */
  function ApplyLines(tables: seq<seq<Option<string>>>, ids: seq<string>, lines: seq<string>)
    : (result: (Result<()>, seq<seq<Option<string>>>))
    requires |tables| == |ids|
    ensures |result.1| == |tables|
    decreases |lines|
  {
    if |lines| == 0 then (Ok(()), tables)
    else
      var (r, after) := ApplyLine(tables, ids, lines[0]);
      if r.Err? then (r, after) else ApplyLines(after, ids, lines[1..])
  }

  lemma ApplyLinesStep(tables: seq<seq<Option<string>>>, ids: seq<string>, lines: seq<string>, i: nat)
    requires |tables| == |ids| && i < |lines|
    ensures var (r, after) := ApplyLine(tables, ids, lines[i]);
      ApplyLines(tables, ids, lines[i..]) == if r.Err? then (r, after) else ApplyLines(after, ids, lines[i + 1..])
  {
    assert lines[i..][1..] == lines[i + 1..];
  }

  /** With distinct ids only the travel with the line's id is offered the line. */
  lemma {:induction false} LoadMatchingDistinct(tables: seq<seq<Option<string>>>, ids: seq<string>, id: string, line: string, n: nat)
    requires |tables| == |ids| && n <= |ids| && SSD.DistinctIds(ids)
    ensures var k := SSD.IndexOfId(ids, id);
      LoadMatching(tables, ids, id, line, n) ==
        if k < 0 || k >= n then (Ok(()), tables)
        else (SSD.LoadLine(tables[k], line).0, tables[k := SSD.LoadLine(tables[k], line).1])
    decreases n
  {
    if n > 0 {
      LoadMatchingDistinct(tables, ids, id, line, n - 1);
      var k := SSD.IndexOfId(ids, id);
      if ids[n - 1] == id {
        assert k == n - 1;
      }
    }
  }

  /**
   * When no two travels share an id, offering a line to every matching
   * travel is offering it to the first one, as the server's store does.
   */
  lemma {:induction false} ApplyLinesDistinct(tables: seq<seq<Option<string>>>, ids: seq<string>, lines: seq<string>)
    requires |tables| == |ids| && SSD.DistinctIds(ids)
    ensures ApplyLines(tables, ids, lines) == SSD.ApplyStatusLines(tables, ids, lines)
    decreases |lines|
  {
    if |lines| > 0 {
      var fields := Split(lines[0], ',');
      if |fields| > 0 {
        LoadMatchingDistinct(tables, ids, fields[0], lines[0], |ids|);
      }
      var (r, after) := ApplyLine(tables, ids, lines[0]);
      if r.Ok? {
        ApplyLinesDistinct(after, ids, lines[1..]);
      }
    }
  }

  /** The status file the travels write reads back into freshly read travels. */
  lemma StatusFileLoadsBack(ids: seq<string>, tables: seq<seq<Option<string>>>)
    requires SSD.RestorableStore(ids, tables)
    ensures ApplyLines(SSD.EmptyTables(tables), ids, SSD.StatusLines(ids, tables)) == (Ok(()), tables)
  {
    ApplyLinesDistinct(SSD.EmptyTables(tables), ids, SSD.StatusLines(ids, tables));
    SSD.StatusFileLoadsBack(ids, tables);
  }

  /** Two travels with the same id both load the line: the loop has no early exit. */
  lemma EveryMatchLoads(t1: seq<Option<string>>, t2: seq<Option<string>>, id: string, line: string)
    requires SSD.LoadLine(t1, line).0.Ok? && SSD.LoadLine(t2, line).0.Ok?
    ensures LoadMatching([t1, t2], [id, id], id, line, 2).0.Ok?
    ensures LoadMatching([t1, t2], [id, id], id, line, 2).1 == [SSD.LoadLine(t1, line).1, SSD.LoadLine(t2, line).1]
  {
    var first := LoadMatching([t1, t2], [id, id], id, line, 1);
    assert first.0 == SSD.LoadLine(t1, line).0 && first.1 == [SSD.LoadLine(t1, line).1, t2];
  }

  /** The status line of a travel `id` that seats `dni` in seat 1 and nobody else. */
  function SeatOneLine(id: string, dni: string): string {
    ST.StatusLine(id, [None, Some(dni)])
  }

  /** That line scans into the id and the one element `1-dni`. */
  lemma SeatOneLineTokens(id: string, dni: string)
    requires id != "" && ',' !in id && ',' !in dni
    ensures ScanTokens(SeatOneLine(id, dni), ',') == [id, ST.Entry(1, dni)]
    ensures SeatOneLine(id, dni) == id + [','] + (ST.Entry(1, dni) + [','])
  {
    var slots := [None, Some(dni)];
    var e := ST.Entry(1, dni);
    assert ST.Entries(slots, 2) == [e] by {
      assert ST.Entries(slots, 1) == [];
    }
    assert ST.Terminated([e]) == e + [','] by {
      assert [e][..0] == [];
      assert ST.Terminated([]) == "";
    }
    ST.StatusLineTokens(id, slots);
  }

  /**
   * As written, the element of a status line that names a seat already
   * taken fails with code `TRAVEL` and the element: the `SEAT` exception
   * is itself a NumberFormatException, which the catch around it replaces.
   */
  lemma RepeatedSeatAsWritten(slots: seq<Option<string>>, id: string, dni: string)
    requires 2 <= |slots| && slots[1].Some?
    requires id != "" && ',' !in id && dni != "" && ',' !in dni && '-' !in dni
    ensures var tokens := ScanTokens(SeatOneLine(id, dni), ',');
      |tokens| == 2 &&
      SSD.LoadEntryAsWritten(slots, tokens[1]) == (Err(SeatsRead("TRAVEL", Some(ST.Entry(1, dni)))), slots)
  {
    SeatOneLineTokens(id, dni);
    SSD.ClashReportedAsTravelAsWritten(slots, 1, dni);
  }

  /**
   * A status line that seats a passenger in a seat its travel already has
   * taken is reported with code `SEAT`, and every table stays as it was.
   */
  lemma RepeatedSeatReportedAsSeat(slots: seq<Option<string>>, id: string, dni: string)
    requires 2 <= |slots| && slots[1].Some?
    requires id != "" && ',' !in id && dni != "" && ',' !in dni && '-' !in dni
    ensures ApplyLine([slots], [id], SeatOneLine(id, dni)) == (Err(SeatsRead("SEAT", None)), [slots])
  {
    var line := SeatOneLine(id, dni);
    SeatOneLineTokens(id, dni);
    SplitFirstField(id, ',', ST.Entry(1, dni) + [',']);
    SSD.ClashReportedAsSeat(slots, 1, dni);
    assert [id, ST.Entry(1, dni)][1..] == [ST.Entry(1, dni)];
    SSD.LoadEntriesUnfold(slots, [ST.Entry(1, dni)]);
    assert SSD.LoadLine(slots, line) == (Err(SeatsRead("SEAT", None)), slots);
    assert LoadMatching([slots], [id], id, line, 0) == (Ok(()), [slots]);
    assert [slots][0 := slots] == [slots];
    assert LoadMatching([slots], [id], id, line, 1) == (Err(SeatsRead("SEAT", None)), [slots]);
    assert Split(line, ',')[0] == id;
  }

  class SalesDesk {
    var passengers: seq<PassengerObject>
    const travels: seq<ST.Travel>

    /** The seat tables of the travels. */
    ghost function Tables(): set<object> {
      set t | t in travels :: t.seats
    }

    /** Each table has its allocated size and no two travels share one. */
    ghost predicate Valid() {
      (forall t :: t in travels ==> t.Valid()) &&
      (forall i, j :: 0 <= i < |travels| && 0 <= j < |travels| && i != j ==> travels[i].seats != travels[j].seats)
    }

    /** The contents of the tables, in iteration order of the travels. */
    ghost function SeatTables(): (r: seq<seq<Option<string>>>)
      reads Tables()
      ensures |r| == |travels| && forall i :: 0 <= i < |travels| ==> r[i] == travels[i].seats[..]
    {
      seq(|travels|, i requires 0 <= i < |travels| reads Tables() => travels[i].seats[..])
    }

    /** A desk over travels already read, each with a table of its own. */
    constructor (passengers: seq<PassengerObject>, travels: seq<ST.Travel>)
      requires forall t :: t in travels ==> t.Valid()
      requires forall i, j :: 0 <= i < |travels| && 0 <= j < |travels| && i != j ==> travels[i].seats != travels[j].seats
      ensures this.passengers == passengers && this.travels == travels && Valid()
    {
      this.passengers := passengers;
      this.travels := travels;
    }

    /** `searchPassenger(dni)`: the first passenger with the DNI, or null. */
    function SearchPassenger(dni: string): (r: Option<PassengerObject>)
      reads this
      ensures r.Some? ==> r.value in passengers && r.value.data.dni == dni
      ensures r.None? <==> forall p :: p in passengers ==> p.data.dni != dni
    {
      Find(passengers, dni)
    }

    /** `searchTravel(id)`: the first travel with the id, or null. */
    function SearchTravel(id: string): (r: Option<ST.Travel>)
      ensures r.Some? ==> r.value in travels && r.value.record.id == id
      ensures r.None? <==> forall t :: t in travels ==> t.record.id != id
    {
      SSD.FindTravel(travels, id)
    }

    /** `addPassenger(p)`: refused when a passenger with the DNI is stored, appended otherwise. */
    method AddPassenger(p: PassengerObject) returns (r: bool)
      modifies this
      ensures r <==> Find(old(passengers), p.data.dni).None?
      ensures passengers == if r then old(passengers) + [p] else old(passengers)
    {
      if SearchPassenger(p.data.dni).None? {
        passengers := passengers + [p];
        return true;
      }
      return false;
    }

    /**
     * `deletePassenger(p)` as the class has it: true whenever a passenger
     * with `p`'s DNI is stored, but only the object `p` itself is removed.
     */
    method DeletePassengerAsWritten(p: PassengerObject) returns (r: bool)
      modifies this
      ensures r <==> Find(old(passengers), p.data.dni).Some?
      ensures passengers == if r then Without(old(passengers), p) else old(passengers)
    {
      if SearchPassenger(p.data.dni).Some? {
        passengers := Without(passengers, p);
        return true;
      }
      return false;
    }

    /** `deletePassenger(p)` as intended: the passenger with `p`'s DNI leaves the store. */
    method DeletePassenger(p: PassengerObject) returns (r: bool)
      modifies this
      ensures r <==> Find(old(passengers), p.data.dni).Some?
      ensures passengers == if r then WithoutDni(old(passengers), p.data.dni) else old(passengers)
      ensures SearchPassenger(p.data.dni).None?
    {
      if SearchPassenger(p.data.dni).Some? {
        passengers := WithoutDni(passengers, p.data.dni);
        return true;
      }
      return false;
    }

    /** `assignSeat(travel, passenger, seat)`: only a seat `isSeatFree` accepts is assigned. */
    method AssignSeat(travel: ST.Travel, p: PassengerObject, seat: int) returns (r: Result<bool>)
      modifies travel.seats
      ensures (r, travel.seats[..]) == SSD.AssignSeatIn(old(travel.seats[..]), travel.seatsNumber, seat, p.data.dni)
    {
      var free := travel.IsSeatFree(seat);
      if free.Err? {
        return Err(free.exc);
      }
      if free.value {
        r := travel.AssignSeat(seat, p.data.dni);
      } else {
        r := Ok(false);
      }
    }

    /** `deallocateSeat(travel, seat)`: only a seat `isSeatFree` refuses is emptied. */
    method DeallocateSeat(travel: ST.Travel, seat: int) returns (r: Result<bool>)
      modifies travel.seats
      ensures (r, travel.seats[..]) == SSD.DeallocateSeatIn(old(travel.seats[..]), travel.seatsNumber, seat)
    {
      var free := travel.IsSeatFree(seat);
      if free.Err? {
        return Err(free.exc);
      }
      if !free.value {
        r := travel.DeallocateSeat(seat);
      } else {
        r := Ok(false);
      }
    }

    /** `whoIsSited(travel, seat)`: null for a free seat, otherwise the passenger with the stored DNI. */
    function WhoIsSited(travel: ST.Travel, seat: int): (r: Result<Option<PassengerObject>>)
      reads this, travel.seats
      ensures match ST.WhoIsSitedIn(travel.seats[..], travel.seatsNumber, seat)
        case Err(e) => r == Err(e)
        case Ok(None) => r == Ok(None)
        case Ok(Some(dni)) => r == Ok(Find(passengers, dni))
    {
      match travel.WhoIsSited(seat)
      case Err(e) => Err(e)
      case Ok(dni) => if dni.None? then Ok(None) else Ok(SearchPassenger(dni.value))
    }

    /** `searchTravelsPerDate(date)`: the travels on that day, month and year, in iteration order. */
    function SearchTravelsPerDate(day: int, month: int, year: int): (r: seq<ST.Travel>)
      ensures forall t :: t in r ==> t in travels && SSD.OnDay(t.record.date, day, month, year)
      ensures forall t :: t in travels && SSD.OnDay(t.record.date, day, month, year) ==> t in r
    {
      SSD.OnDate(travels, day, month, year)
    }

    /** `seatsStatus(travel)`: the header loop, then a loop over the rows with one over the columns. */
    method SeatsStatus(travel: ST.Travel) returns (r: Result<string>)
      ensures r == SeatsStatusOf(travel.record.distribution, travel.seats[..], travel.seatsNumber)
    {
      var layout := LayoutOf(travel.record.distribution);
      if layout.Err? {
        return Err(layout.exc);
      }
      var l := layout.value;
      var header := HeaderLoop(l);
      if header.Err? {
        return Err(header.exc);
      }
      var body := SeatRows(travel, l);
      r := Ok("_____" + header.value + "\n" + body);
    }

    /** The column designation loop. */
    static method HeaderLoop(l: Layout) returns (r: Result<string>)
      ensures r == HeaderCells(l, Clamp(l.cols))
    {
      var cells := "";
      var i := 0;
      while i < l.cols
        invariant 0 <= i <= Clamp(l.cols)
        invariant HeaderCells(l, i) == Ok(cells)
      {
        var cell;
        if i < l.corridor {
          if i >= |Designations| {
            HeaderStops(l, i + 1, Clamp(l.cols));
            return Err(IndexOutOfBounds);
          }
          cell := "____" + Designations[i];
        } else if i > l.corridor {
          if !(0 <= i - 1 < |Designations|) {
            HeaderStops(l, i + 1, Clamp(l.cols));
            return Err(IndexOutOfBounds);
          }
          cell := Designations[i - 1] + "____";
        } else {
          cell := "_________";
        }
        assert HeaderCell(l, i) == Ok(cell);
        cells := cells + cell;
        i := i + 1;
      }
      r := Ok(cells);
    }

    /** The seat map: one line per row, the seat counter running on from row to row. */
    static method SeatRows(travel: ST.Travel, l: Layout) returns (body: string)
      ensures body == TerminatedBy(RowTexts(travel.seats[..], travel.seatsNumber, l, Clamp(l.rows)).0, '\n')
    {
      ghost var slots := travel.seats[..];
      body := "";
      var seatsIndex := 1;
      var row := 0;
      while row < l.rows
        invariant 0 <= row <= Clamp(l.rows)
        invariant travel.seats[..] == slots
        invariant RowTexts(slots, travel.seatsNumber, l, row).1 == seatsIndex
        invariant body == TerminatedBy(RowTexts(slots, travel.seatsNumber, l, row).0, '\n')
      {
        var line, next := SeatRow(travel, l, row, seatsIndex);
        SeatRowsStep(slots, travel.seatsNumber, l, row, body, seatsIndex, line, next);
        body := body + line + "\n";
        seatsIndex := next;
        row := row + 1;
      }
      assert row == Clamp(l.rows);
    }

    /** One row: `_NN_| `, then a cell per column. */
    static method SeatRow(travel: ST.Travel, l: Layout, row: int, idx: int) returns (line: string, next: int)
      ensures (line, next) == RowText(travel.seats[..], travel.seatsNumber, l, row, idx)
    {
      var cells := "";
      next := idx;
      var col := 0;
      while col < l.cols
        invariant 0 <= col <= Clamp(l.cols)
        invariant (cells, next) == RowCells(travel.seats[..], travel.seatsNumber, l, row, col, idx)
      {
        var cell;
        ghost var before := next;
        if col == l.corridor && row != l.rows - 1 {
          cell := "     ";
        } else if row == l.rows / 2 && col > l.corridor && l.rows > MinSizeBackDoor {
          cell := "  ";
        } else {
          var free := travel.IsSeatFree(next);
          if free == Ok(true) {
            cell := "  " + Pad2(next) + " ";
          } else {
            cell := " (" + Pad2(next) + ")";
          }
          next := next + 1;
        }
        assert (cell, next) == Cell(travel.seats[..], travel.seatsNumber, l, row, col, before);
        cells := cells + cell;
        col := col + 1;
      }
      line := "_" + Pad2(row + 1) + "_" + "| " + cells;
    }

    /**
     * `readTravelsStatus`: each line is offered to every travel whose id is
     * its first field; the first exception stops the reading.
     */
    method ReadTravelsStatus(lines: seq<string>) returns (r: Result<()>)
      requires Valid()
      modifies Tables()
      ensures (r, SeatTables()) == ApplyLines(old(SeatTables()), SSD.Ids(travels), lines)
    {
      var i := 0;
      while i < |lines|
        invariant 0 <= i <= |lines|
        invariant ApplyLines(SeatTables(), SSD.Ids(travels), lines[i..]) == ApplyLines(old(SeatTables()), SSD.Ids(travels), lines)
      {
        ApplyLinesStep(SeatTables(), SSD.Ids(travels), lines, i);
        r := ReadStatusLine(lines[i]);
        if r.Err? {
          return;
        }
        i := i + 1;
      }
      r := Ok(());
    }

    /** The body of the `readTravelsStatus` loop: the loop over the travels, with no early exit. */
    method ReadStatusLine(line: string) returns (r: Result<()>)
      requires Valid()
      modifies Tables()
      ensures (r, SeatTables()) == ApplyLine(old(SeatTables()), SSD.Ids(travels), line)
    {
      ghost var before := SeatTables();
      var fields := Split(line, ',');
      if |fields| == 0 {
        return Err(IndexOutOfBounds);
      }
      var readID := fields[0];
      ghost var ids := SSD.Ids(travels);
      var k := 0;
      while k < |travels|
        invariant 0 <= k <= |travels|
        invariant (Ok(()), SeatTables()) == LoadMatching(before, ids, readID, line, k)
      {
        ReadStatusStep(before, ids, readID, line, k, SeatTables());
        if readID == travels[k].record.id {
          r := LoadAt(k, line);
          if r.Err? {
            LoadMatchingStops(before, ids, readID, line, k + 1, |travels|);
            return;
          }
          assert r.value == ();
        }
        k := k + 1;
      }
      r := Ok(());
    }

    /** `loadPassengersIntoTravel` on travel `k`; the other tables stay as they were. */
    method LoadAt(k: nat, line: string) returns (r: Result<()>)
      requires Valid() && k < |travels|
      modifies travels[k].seats
      ensures Valid()
      ensures (r, SeatTables()[k]) == SSD.LoadLine(old(SeatTables())[k], line)
      ensures SeatTables() == old(SeatTables())[k := SeatTables()[k]]
    {
      ghost var before := SeatTables();
      var t := travels[k];
      r := SSD.SalesDesk.LoadPassengersIntoTravel(t, line);
      forall j | 0 <= j < |travels| && j != k
        ensures travels[j].seats[..] == before[j]
      {
        assert travels[j].seats != t.seats;
      }
      assert SeatTables() == before[k := t.seats[..]];
    }
  }

  /** One more row drawn extends the listing by that row's line. */
  lemma SeatRowsStep(slots: seq<Option<string>>, seatsNumber: int, l: Layout, row: nat,
                     body: string, idx: int, line: string, next: int)
    requires RowTexts(slots, seatsNumber, l, row).1 == idx
    requires body == TerminatedBy(RowTexts(slots, seatsNumber, l, row).0, '\n')
    requires (line, next) == RowText(slots, seatsNumber, l, row, idx)
    ensures RowTexts(slots, seatsNumber, l, row + 1).1 == next
    ensures body + line + "\n" == TerminatedBy(RowTexts(slots, seatsNumber, l, row + 1).0, '\n')
  {
    var texts := RowTexts(slots, seatsNumber, l, row).0;
    assert RowTexts(slots, seatsNumber, l, row + 1) == (texts + [line], next);
    TerminatedBySnoc(texts, line);
  }

  /** Appending a line to a listing appends it and its line break. */
  lemma TerminatedBySnoc(es: seq<string>, e: string)
    ensures TerminatedBy(es + [e], '\n') == TerminatedBy(es, '\n') + e + "\n"
  {
    assert (es + [e])[..|es|] == es;
  }
}

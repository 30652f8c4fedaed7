/**
 * The travel box of the desktop application: each travel is listed under a
 * label cut out of its `toString()` line, in the comparator's order, and the
 * selected label is read back by splitting it on spaces.
 */
module LegacyNorthPanel {
  import opened Outcomes
  import opened Text
  import MT = ModelTravel
  import opened TravelOrder

  /** `origin-destiny HH:MM [ ID: id ]`. */
  function LabelOf(origin: string, destiny: string, hour: int, minute: int, id: string): string {
    origin + "-" + destiny + " " + Time(hour, minute) + " " + IdTag(id)
  }

  /** `HH:MM`, each zero-padded to two digits. */
  function Time(hour: int, minute: int): string {
    Pad2(hour) + ":" + Pad2(minute)
  }

  /** `[ ID: id ]`. */
  function IdTag(id: string): string {
    "[ ID: " + id + " ]"
  }

  /**
   * The label `updateTravels` builds for a travel: `toString()` split on
   * `,`, elements 1 and 2 as origin and destiny, elements 6 and 7 parsed as
   * hour and minute, element 0 as the id, taken in that order.
   */
  function Label(r: MT.Record): (l: Result<string>)
    ensures l.Err? ==> l.exc == IndexOutOfBounds || l.exc == NumberFormat
  {
    var tokens := Split(MT.ToStringLine(r, ','), ',');
    var origin :- MT.Token(tokens, 1);
    var destiny :- MT.Token(tokens, 2);
    var hour :- MT.IntToken(tokens, 6);
    var minute :- MT.IntToken(tokens, 7);
    // element 0 is there once element 1 was
    Ok(LabelOf(origin, destiny, hour, minute, tokens[0]))
  }

  /** A travel whose `toString()` line splits back into its own fields. */
  predicate Listable(r: MT.Record) {
    ',' !in r.id && ',' !in r.origin && ',' !in r.destiny &&
    InInt32(r.date.day) && InInt32(r.date.month) && InInt32(r.date.year) &&
    InInt32(r.date.hour) && InInt32(r.date.minute)
  }

  /** A listable travel is labelled with its origin, destiny, hour of day, minute and id. */
  lemma LabelOfListable(r: MT.Record)
    requires Listable(r)
    ensures Label(r) == Ok(LabelOf(r.origin, r.destiny, r.date.hour, r.date.minute, r.id))
  {
    var fs := [r.id, r.origin, r.destiny,
               IntToString(r.date.day), IntToString(r.date.month), IntToString(r.date.year),
               IntToString(r.date.hour), IntToString(r.date.minute)];
    MT.IntToStringFree(r.date.day, ',');
    MT.IntToStringFree(r.date.month, ',');
    MT.IntToStringFree(r.date.year, ',');
    MT.IntToStringFree(r.date.hour, ',');
    MT.IntToStringFree(r.date.minute, ',');
    assert SeparatorFree(fs, ',');
    SignOfIntToString(r.date.minute);
    SplitOfJoin(fs, ',');
    ParseIntOfIntToString(r.date.hour);
    ParseIntOfIntToString(r.date.minute);
  }

  // ---------------------------------------------------------------------------
  // Reading the selected label back

  /** `getSelectedTravel()`: element 4 of the selected label split on spaces. */
  function SelectedTravel(item: Option<string>): (r: Result<string>)
    ensures r.Err? ==> r.exc == NullPointer || r.exc == IndexOutOfBounds
    ensures item.None? ==> r == Err(NullPointer)
  {
    match item
    case None => Err(NullPointer)
    case Some(s) => MT.Token(Split(s, ' '), 4)
  }

  /** `getTravelHour()`: element 1 of the label split on spaces, split on `:`, both halves parsed. */
  function TravelHour(item: Option<string>): (r: Result<(int, int)>)
    ensures r.Err? ==> r.exc == NullPointer || r.exc == IndexOutOfBounds || r.exc == NumberFormat
    ensures item.None? ==> r == Err(NullPointer)
  {
    match item
    case None => Err(NullPointer)
    case Some(s) =>
      var time :- MT.Token(Split(s, ' '), 1);
      var parts := Split(time, ':');
      var hour :- MT.IntToken(parts, 0);
      var minute :- MT.IntToken(parts, 1);
      Ok((hour, minute))
  }

  /** What `%02d` writes holds digits and at most a sign, and never nothing. */
  lemma Pad2Chars(n: int)
    requires InInt32(n)
    ensures |Pad2(n)| > 0 && ' ' !in Pad2(n) && ':' !in Pad2(n)
  {
    ParseIntOfPad2(n);
    if 0 <= n < 10 {
      assert Pad2(n)[0] == '0';
    } else {
      SignOfIntToString(n);
    }
  }

  /** The label is six space-separated words. */
  lemma LabelWords(origin: string, destiny: string, hour: int, minute: int, id: string)
    ensures LabelOf(origin, destiny, hour, minute, id) ==
      Join([origin + "-" + destiny, Time(hour, minute), "[", "ID:", id, "]"], ' ')
  {
    var ws := [origin + "-" + destiny, Time(hour, minute), "[", "ID:", id, "]"];
    IdTagWords(id);
    assert ws[2..] == ["[", "ID:", id, "]"];
    assert Join(ws[1..], ' ') == Time(hour, minute) + " " + IdTag(id);
  }

  lemma IdTagWords(id: string)
    ensures Join(["[", "ID:", id, "]"], ' ') == IdTag(id)
  {
    var ws := ["[", "ID:", id, "]"];
    assert Join(ws[2..], ' ') == id + " ]";
  }

  /** From a label whose origin, destiny and id hold no space, the id and the time are read back. */
  lemma LabelReadsBack(origin: string, destiny: string, hour: int, minute: int, id: string)
    requires ' ' !in origin && ' ' !in destiny && ' ' !in id && InInt32(hour) && InInt32(minute)
    ensures SelectedTravel(Some(LabelOf(origin, destiny, hour, minute, id))) == Ok(id)
    ensures TravelHour(Some(LabelOf(origin, destiny, hour, minute, id))) == Ok((hour, minute))
  {
    var ws := [origin + "-" + destiny, Time(hour, minute), "[", "ID:", id, "]"];
    Pad2Chars(hour);
    Pad2Chars(minute);
    NotInConcat(origin + "-", destiny, ' ');
    NotInConcat(Pad2(hour) + ":", Pad2(minute), ' ');
    assert SeparatorFree(ws, ' ');
    LabelWords(origin, destiny, hour, minute, id);
    SplitOfJoin(ws, ' ');
    var ts := [Pad2(hour), Pad2(minute)];
    assert Join(ts, ':') == Time(hour, minute);
    SplitOfJoin(ts, ':');
    ParseIntOfPad2(hour);
    ParseIntOfPad2(minute);
  }

  /** A listed travel without spaces in its text fields is read back as its id and its departure time. */
  lemma ListedTravelReadsBack(r: MT.Record)
    requires Listable(r) && ' ' !in r.origin && ' ' !in r.destiny && ' ' !in r.id
    ensures Label(r).Ok?
    ensures SelectedTravel(Some(Label(r).value)) == Ok(r.id)
    ensures TravelHour(Some(Label(r).value)) == Ok((r.date.hour, r.date.minute))
  {
    LabelOfListable(r);
    LabelReadsBack(r.origin, r.destiny, r.date.hour, r.date.minute, r.id);
  }

  // ---------------------------------------------------------------------------
  // The panel

  /** The comparator's view of a travel. */
  function RecordKey(r: MT.Record): Key {
    KeyOf(r.origin, r.destiny, r.date)
  }

  /** The label of each travel, or the exception building it throws. */
  function Labels(rs: seq<MT.Record>): (ls: seq<Result<string>>)
    ensures |ls| == |rs|
  {
    seq(|rs|, i requires 0 <= i < |rs| => Label(rs[i]))
  }

  /** The labels in order up to the first one that fails, and that failure. */
  function UpToFailure(ls: seq<Result<string>>): (r: (Result<()>, seq<string>))
    ensures |r.1| <= |ls|
  {
    if |ls| == 0 then (Ok(()), [])
    else
      match ls[0]
      case Err(e) => (Err(e), [])
      case Ok(l) =>
        var rest := UpToFailure(ls[1..]);
        (rest.0, [l] + rest.1)
  }

  /**
   * What is kept is the labels before the first failure, and the failure
   * is that of the next label; with no failure, every label is kept.
   */
  lemma {:induction false} UpToFailureKeepsPrefix(ls: seq<Result<string>>)
    ensures var r := UpToFailure(ls);
      (r.0 == Ok(()) <==> forall i :: 0 <= i < |ls| ==> ls[i].Ok?) &&
      (r.0.Ok? ==> |r.1| == |ls|) &&
      (r.0.Err? ==> |r.1| < |ls| && ls[|r.1|] == Err(r.0.exc)) &&
      forall i :: 0 <= i < |r.1| ==> ls[i] == Ok(r.1[i])
  {
    if |ls| > 0 && ls[0].Ok? {
      var rest := ls[1..];
      UpToFailureKeepsPrefix(rest);
      assert forall i :: 0 < i < |ls| ==> ls[i] == rest[i - 1];
    }
  }

  /** The labels `updateTravels` adds for these travels, in order, and the exception that stops it. */
  function LabelAll(rs: seq<MT.Record>): (r: (Result<()>, seq<string>))
    ensures |r.1| <= |rs|
  {
    UpToFailure(Labels(rs))
  }

  /** The label of each travel built from its own fields. */
  function ListedLabels(rs: seq<MT.Record>): (ls: seq<string>)
    ensures |ls| == |rs|
  {
    seq(|rs|, i requires 0 <= i < |rs| => LabelOf(rs[i].origin, rs[i].destiny, rs[i].date.hour, rs[i].date.minute, rs[i].id))
  }

  lemma LabelsListable(rs: seq<MT.Record>)
    requires forall i :: 0 <= i < |rs| ==> Listable(rs[i])
    ensures forall i :: 0 <= i < |rs| ==> Labels(rs)[i] == Ok(ListedLabels(rs)[i])
  {
    forall i | 0 <= i < |rs|
      ensures Labels(rs)[i] == Ok(ListedLabels(rs)[i])
    {
      LabelOfListable(rs[i]);
    }
  }

  /** With no failure, every label is kept. */
  lemma UpToFailureAllOk(ls: seq<Result<string>>, vs: seq<string>)
    requires |ls| == |vs| && forall i :: 0 <= i < |ls| ==> ls[i] == Ok(vs[i])
    ensures UpToFailure(ls) == (Ok(()), vs)
  {
    UpToFailureKeepsPrefix(ls);
    assert forall i :: 0 <= i < |ls| ==> ls[i].Ok?;
    assert UpToFailure(ls).1 == vs;
  }

  /** Listable travels are all labelled, each with its own fields. */
  lemma LabelAllListable(rs: seq<MT.Record>)
    requires forall i :: 0 <= i < |rs| ==> Listable(rs[i])
    ensures LabelAll(rs) == (Ok(()), ListedLabels(rs))
  {
    LabelsListable(rs);
    UpToFailureAllOk(Labels(rs), ListedLabels(rs));
  }

  /** From one label on: that label and the ones after it, or its failure. */
  lemma UpToFailureStep(ls: seq<Result<string>>, i: nat)
    requires i < |ls|
    ensures ls[i].Err? ==> UpToFailure(ls[i..]) == (Err(ls[i].exc), [])
    ensures ls[i].Ok? ==>
      UpToFailure(ls[i..]) == (UpToFailure(ls[i + 1..]).0, [ls[i].value] + UpToFailure(ls[i + 1..]).1)
  {
    var t := ls[i..];
    assert t[0] == ls[i] && t[1..] == ls[i + 1..];
  }

  /**
   * The travel box.  `removeAllItems` clears it and its selection, and the
   * first item added to an empty box becomes the selection.  `emptyLists`
   * counts the calls to `receivedListEmpty`.
   */
  class NorthPanel {
    var items: seq<string>
    var selected: Option<string>
    var emptyLists: nat

    constructor()
      ensures items == [] && selected == None && emptyLists == 0
    {
      items := [];
      selected := None;
      emptyLists := 0;
    }

    /**
     * `updateTravels(travels)`: the box is cleared; a null list is a
     * NullPointerException, an empty one is reported; otherwise the sorted
     * travels' labels are added until one of them cannot be built, whose
     * exception ends the call with the labels before it in the box.
     */
    method UpdateTravels(travels: Option<seq<MT.Record>>) returns (r: Result<()>)
      modifies this
      ensures travels.None? ==> r == Err(NullPointer) && items == [] && emptyLists == old(emptyLists)
      ensures travels.Some? && |travels.value| == 0 ==>
        r == Ok(()) && items == [] && emptyLists == old(emptyLists) + 1
      ensures travels.Some? && |travels.value| > 0 ==>
        (r, items) == LabelAll(Sort(travels.value, RecordKey)) && emptyLists == old(emptyLists)
      ensures selected == if |items| > 0 then Some(items[0]) else None
    {
      items := [];
      selected := None;
      if travels.None? {
        return Err(NullPointer);
      }
      if |travels.value| == 0 {
        emptyLists := emptyLists + 1;
        return Ok(());
      }
      r := AddLabels(Labels(Sort(travels.value, RecordKey)));
    }

    /**
     * The loop of `updateTravels` over the sorted travels: each label is
     * added to the box, until the first label that cannot be built.  The
     * labels are pure functions of the travels, so they are passed in
     * already built.
     */
    method AddLabels(ls: seq<Result<string>>) returns (r: Result<()>)
      requires items == [] && selected == None
      modifies this
      ensures (r, items) == UpToFailure(ls)
      ensures selected == if |items| > 0 then Some(items[0]) else None
      ensures emptyLists == old(emptyLists)
    {
      var i := 0;
      assert ls[i..] == ls && items + UpToFailure(ls).1 == UpToFailure(ls).1;
      while i < |ls|
        invariant 0 <= i <= |ls|
        invariant UpToFailure(ls) == (UpToFailure(ls[i..]).0, items + UpToFailure(ls[i..]).1)
        invariant selected == if |items| > 0 then Some(items[0]) else None
        invariant emptyLists == old(emptyLists)
      {
        UpToFailureStep(ls, i);
        if ls[i].Err? {
          assert items + [] == items;
          assert UpToFailure(ls) == (Err(ls[i].exc), items);
          return Err(ls[i].exc);
        }
        assert items + ([ls[i].value] + UpToFailure(ls[i + 1..]).1) == items + [ls[i].value] + UpToFailure(ls[i + 1..]).1;
        items := items + [ls[i].value];
        if |items| == 1 {
          selected := Some(items[0]);
        }
        i := i + 1;
      }
      assert ls[i..] == [];
      assert UpToFailure(ls[i..]) == (Ok(()), []) && items + [] == items;
      r := Ok(());
    }
  }

  /** A list of listable travels is shown whole, in the comparator's order, each travel under its own label. */
  lemma ListedInOrder(rs: seq<MT.Record>)
    requires forall i :: 0 <= i < |rs| ==> Listable(rs[i])
    ensures var sorted := Sort(rs, RecordKey);
      SortedBy(sorted, RecordKey) && multiset(sorted) == multiset(rs) &&
      LabelAll(sorted) == (Ok(()), ListedLabels(sorted))
  {
    var sorted := Sort(rs, RecordKey);
    SortSorted(rs, RecordKey);
    SortPermutes(rs, RecordKey);
    forall i | 0 <= i < |sorted|
      ensures Listable(sorted[i])
    {
      assert sorted[i] in multiset(rs);
      var j :| 0 <= j < |rs| && rs[j] == sorted[i];
    }
    LabelAllListable(sorted);
  }
}

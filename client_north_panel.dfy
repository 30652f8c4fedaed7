/**
 * The travel box of the client window: the label each travel is listed
 * under, the order the travels are listed in, and what is read back from
 * the selected label with the pattern
 * `\w*-\w*\s(\d+):(\d+)\s\[\sID:\s(\d+)\s\]`, whose three groups are the
 * hour, the minute and the id.  The hour and minute patterns of the panel
 * are this pattern with one group each, so one match gives all three.
 */
module ClientNorthPanel {
  import opened Outcomes
  import opened Text
  import CT = ClientTravel
  import opened TravelOrder

  // ---------------------------------------------------------------------------
  // The label pattern

  /** `\w`: an ASCII letter, a digit or the underscore. */
  predicate IsWordChar(c: char) {
    'a' <= c <= 'z' || 'A' <= c <= 'Z' || '0' <= c <= '9' || c == '_'
  }

  /** `\s`: space, tab, line feed, vertical tab, form feed or carriage return. */
  predicate IsSpaceChar(c: char) {
    c == ' ' || 9 <= c as int <= 13
  }

  predicate AllWordChars(s: string) {
    forall i :: 0 <= i < |s| ==> IsWordChar(s[i])
  }

  /** The end of the run of word characters that starts at `p`. */
  function WordEnd(s: string, p: nat): (q: nat)
    requires p <= |s|
    ensures p <= q <= |s|
    ensures forall i :: p <= i < q ==> IsWordChar(s[i])
    ensures q == |s| || !IsWordChar(s[q])
    decreases |s| - p
  {
    if p < |s| && IsWordChar(s[p]) then WordEnd(s, p + 1) else p
  }

  /** The end of the run of digits that starts at `p`. */
  function DigitEnd(s: string, p: nat): (q: nat)
    requires p <= |s|
    ensures p <= q <= |s|
    ensures forall i :: p <= i < q ==> IsDigit(s[i])
    ensures q == |s| || !IsDigit(s[q])
    decreases |s| - p
  {
    if p < |s| && IsDigit(s[p]) then DigitEnd(s, p + 1) else p
  }

  /** The three groups of one match. */
  datatype Groups = Groups(hour: string, minute: string, id: string)

  predicate DigitGroups(g: Groups) {
    |g.hour| > 0 && AllDigits(g.hour) && |g.minute| > 0 && AllDigits(g.minute) && |g.id| > 0 && AllDigits(g.id)
  }

  /** `\s\[\sID:\s` at `e`. */
  predicate IdPrefixAt(s: string, e: nat) {
    e + 7 <= |s| && IsSpaceChar(s[e]) && s[e + 1] == '[' && IsSpaceChar(s[e + 2]) &&
    s[e + 3] == 'I' && s[e + 4] == 'D' && s[e + 5] == ':' && IsSpaceChar(s[e + 6])
  }

  /**
   * A match of the pattern starting at `p`.  Every repeated class in the
   * pattern is followed by a character outside it (`-`, `\s`, `:`), so the
   * longest run is the only one that can lead to a match and the matcher
   * never has to give characters back.
   */
  function MatchAt(s: string, p: nat): (m: Option<Groups>)
    requires p <= |s|
    ensures m.Some? ==> DigitGroups(m.value)
  {
    var a := WordEnd(s, p);
    if a == |s| || s[a] != '-' then None
    else
      var b := WordEnd(s, a + 1);
      if b == |s| || !IsSpaceChar(s[b]) then None
      else MatchTail(s, b)
  }

  /** The rest of a match, from the `\s` after `\w*-\w*` at `b` on. */
  function MatchTail(s: string, b: nat): (m: Option<Groups>)
    requires b < |s|
    ensures m.Some? ==> DigitGroups(m.value)
  {
    var c := DigitEnd(s, b + 1);
    if c == b + 1 || c == |s| || s[c] != ':' then None
    else
      var e := DigitEnd(s, c + 1);
      if e == c + 1 || !IdPrefixAt(s, e) then None
      else
        var f := DigitEnd(s, e + 7);
        if f == e + 7 || f + 2 > |s| || !IsSpaceChar(s[f]) || s[f + 1] != ']' then None
        else Some(Groups(s[b + 1..c], s[c + 1..e], s[e + 7..f]))
  }

  /** `matcher.find()`: the match that starts first, at `p` or after it. */
  function Find(s: string, p: nat): (m: Option<Groups>)
    requires p <= |s|
    ensures m.Some? ==> DigitGroups(m.value)
    decreases |s| - p
  {
    if MatchAt(s, p).Some? then MatchAt(s, p)
    else if p == |s| then None
    else Find(s, p + 1)
  }

  // ---------------------------------------------------------------------------
  // Labels

  /** `origin-destiny HH:MM [ ID: id ]`, with `hour` as HH. */
  function LabelWith(t: CT.Travel, hour: int): string {
    Route(t) + TimeAndId(t, hour)
  }

  /** `origin-destiny`. */
  function Route(t: CT.Travel): string {
    t.record.origin + "-" + t.record.destiny
  }

  /** ` HH:MM [ ID: id ]`. */
  function TimeAndId(t: CT.Travel, hour: int): string {
    " " + Pad2(hour) + ":" + Pad2(t.record.date.minute) + " [ ID: " + t.record.id + " ]"
  }

  /** `updateTravels` as written: HH is `GregorianCalendar.HOUR`, the hour within the morning or the afternoon. */
  function LabelAsWritten(t: CT.Travel): string {
    LabelWith(t, Hour12(t.record.date))
  }

  /** The label with `HOUR_OF_DAY`, the hour `MainFrame.isOutOfDate` reads it back as. */
  function Label(t: CT.Travel): string {
    LabelWith(t, t.record.date.hour)
  }

  /** A label the pattern reads back: no `-` in the origin, a destiny of word characters, a numeric id. */
  predicate Readable(t: CT.Travel, hour: int) {
    '-' !in t.record.origin && AllWordChars(t.record.destiny) &&
    |t.record.id| > 0 && AllDigits(t.record.id) &&
    0 <= hour < 100 && 0 <= t.record.date.minute < 100
  }

  /** The run of a class that ends exactly at `q`. */
  lemma WordEndAt(s: string, p: nat, q: nat)
    requires p <= q <= |s| && (forall i :: p <= i < q ==> IsWordChar(s[i])) && (q == |s| || !IsWordChar(s[q]))
    ensures WordEnd(s, p) == q
  {
  }

  lemma DigitEndAt(s: string, p: nat, q: nat)
    requires p <= q <= |s| && (forall i :: p <= i < q ==> IsDigit(s[i])) && (q == |s| || !IsDigit(s[q]))
    ensures DigitEnd(s, p) == q
  {
  }

  /** Where the origin, the `-` and the destiny sit in the route. */
  lemma RouteLayout(t: CT.Travel)
    ensures var r := Route(t);
      var o := |t.record.origin|;
      |r| == o + 1 + |t.record.destiny| && r[o] == '-' &&
      (forall i :: 0 <= i < o ==> r[i] == t.record.origin[i]) &&
      (forall i :: 0 <= i < |t.record.destiny| ==> r[o + 1 + i] == t.record.destiny[i])
  {
  }

  /** Where the hour, the minute and the id sit after the route. */
  lemma TimeAndIdLayout(t: CT.Travel, hour: int)
    requires Readable(t, hour)
    ensures var u := TimeAndId(t, hour);
      var n := |t.record.id|;
      |u| == n + 15 && IsSpaceChar(u[0]) && IsDigit(u[1]) && IsDigit(u[2]) && u[3] == ':' &&
      IsDigit(u[4]) && IsDigit(u[5]) && IdPrefixAt(u, 6) &&
      u[1..3] == Pad2(hour) && u[4..6] == Pad2(t.record.date.minute) &&
      (forall i :: 0 <= i < n ==> u[13 + i] == t.record.id[i]) && u[13..13 + n] == t.record.id &&
      IsSpaceChar(u[13 + n]) && u[14 + n] == ']'
  {
    Pad2Digits(hour);
    Pad2Digits(t.record.date.minute);
    var u := TimeAndId(t, hour);
    var hh := Pad2(hour);
    var mm := Pad2(t.record.date.minute);
    assert u == [' ', hh[0], hh[1], ':', mm[0], mm[1], ' ', '[', ' ', 'I', 'D', ':', ' '] + t.record.id + [' ', ']'];
  }

  /** A slice of a suffix is a slice of the whole. */
  lemma SliceOfSuffix(s: string, b: nat, i: nat, j: nat)
    requires i <= j && b + j <= |s|
    ensures s[b + i..b + j] == s[b..][i..j]
  {
  }

  /** Where the runs of digits end in the tail of a label. */
  lemma TimeAndIdEnds(s: string, b: nat, t: CT.Travel, hour: int)
    requires Readable(t, hour) && b <= |s| && s[b..] == TimeAndId(t, hour)
    ensures var n := |t.record.id|;
      b + n + 15 == |s| && DigitEnd(s, b + 1) == b + 3 && s[b + 3] == ':' && DigitEnd(s, b + 4) == b + 6 &&
      IdPrefixAt(s, b + 6) && DigitEnd(s, b + 13) == b + 13 + n &&
      IsSpaceChar(s[b + 13 + n]) && s[b + 14 + n] == ']'
  {
    var u := TimeAndId(t, hour);
    var n := |t.record.id|;
    TimeAndIdLayout(t, hour);
    assert forall i :: b <= i < |s| ==> s[i] == u[i - b];
    DigitEndAt(s, b + 1, b + 3);
    DigitEndAt(s, b + 4, b + 6);
    assert forall i :: b + 13 <= i < b + 13 + n ==> IsDigit(s[i]) by {
      forall i | b + 13 <= i < b + 13 + n
        ensures IsDigit(s[i])
      {
        assert s[i] == u[13 + (i - b - 13)] == t.record.id[i - b - 13];
      }
    }
    DigitEndAt(s, b + 13, b + 13 + n);
  }

  /** The tail of a label matches from its leading space on, with the label's hour, minute and id. */
  lemma MatchTimeAndId(s: string, b: nat, t: CT.Travel, hour: int)
    requires Readable(t, hour) && b < |s| && s[b..] == TimeAndId(t, hour)
    ensures MatchTail(s, b) == Some(Groups(Pad2(hour), Pad2(t.record.date.minute), t.record.id))
  {
    var n := |t.record.id|;
    TimeAndIdLayout(t, hour);
    TimeAndIdEnds(s, b, t, hour);
    SliceOfSuffix(s, b, 1, 3);
    SliceOfSuffix(s, b, 4, 6);
    SliceOfSuffix(s, b, 13, 13 + n);
  }

  /** In a string that starts with the route, the two word runs end at the `-` and at the end of the route. */
  lemma MatchRoute(s: string, t: CT.Travel, p: nat)
    requires p <= |t.record.origin| && |Route(t)| < |s| && s[..|Route(t)|] == Route(t)
    requires forall i :: p <= i < |t.record.origin| ==> IsWordChar(t.record.origin[i])
    requires AllWordChars(t.record.destiny) && !IsWordChar(s[|Route(t)|])
    ensures WordEnd(s, p) == |t.record.origin| && s[|t.record.origin|] == '-'
    ensures WordEnd(s, |t.record.origin| + 1) == |Route(t)|
  {
    var r := Route(t);
    var o := |t.record.origin|;
    var b := |r|;
    RouteLayout(t);
    assert forall i :: 0 <= i < b ==> s[i] == r[i];
    WordEndAt(s, p, o);
    assert forall i :: o + 1 <= i < b ==> IsWordChar(s[i]) by {
      forall i | o + 1 <= i < b
        ensures IsWordChar(s[i])
      {
        assert s[i] == r[o + 1 + (i - o - 1)] == t.record.destiny[i - o - 1];
      }
    }
    WordEndAt(s, o + 1, b);
  }

  /** From any point of the origin's last word on, the pattern matches the whole rest of the label. */
  lemma MatchLabel(t: CT.Travel, hour: int, p: nat)
    requires Readable(t, hour) && p <= |t.record.origin|
    requires forall i :: p <= i < |t.record.origin| ==> IsWordChar(t.record.origin[i])
    ensures MatchAt(LabelWith(t, hour), p) == Some(Groups(Pad2(hour), Pad2(t.record.date.minute), t.record.id))
  {
    var s := LabelWith(t, hour);
    var b := |Route(t)|;
    assert s[..b] == Route(t);
    assert s[b..] == TimeAndId(t, hour);
    TimeAndIdLayout(t, hour);
    assert s[b] == TimeAndId(t, hour)[0];
    MatchRoute(s, t, p);
    MatchTimeAndId(s, b, t, hour);
  }

  /** Before the origin's last word the pattern cannot start: the first non-word character is no `-`. */
  lemma NoMatchInOrigin(t: CT.Travel, hour: int, p: nat, k: nat)
    requires Readable(t, hour) && p <= k < |t.record.origin| && !IsWordChar(t.record.origin[k])
    ensures MatchAt(LabelWith(t, hour), p) == None
  {
    var s := LabelWith(t, hour);
    RouteLayout(t);
    assert forall i :: 0 <= i < |t.record.origin| ==> s[i] == t.record.origin[i];
  }

  /** `find()` from any point of the origin returns the label's hour, minute and id. */
  lemma {:induction false} FindLabel(t: CT.Travel, hour: int, p: nat)
    requires Readable(t, hour) && p <= |t.record.origin|
    ensures Find(LabelWith(t, hour), p) == Some(Groups(Pad2(hour), Pad2(t.record.date.minute), t.record.id))
    decreases |t.record.origin| - p
  {
    var origin := t.record.origin;
    if forall i :: p <= i < |origin| ==> IsWordChar(origin[i]) {
      MatchLabel(t, hour, p);
    } else {
      var k :| p <= k < |origin| && !IsWordChar(origin[k]);
      NoMatchInOrigin(t, hour, p, k);
      FindLabel(t, hour, p + 1);
    }
  }

  // ---------------------------------------------------------------------------
  // Reading the selected label

  /** `getSelectedTravel()`: the id group of the first match, or null; a null selection is a NullPointerException. */
  function SelectedTravel(item: Option<string>): (r: Result<Option<string>>)
    ensures r.Err? <==> item.None?
    ensures r.Ok? && r.value.Some? ==> |r.value.value| > 0 && AllDigits(r.value.value)
  {
    match item
    case None => Err(NullPointer)
    case Some(s) =>
      match Find(s, 0)
      case None => Ok(None)
      case Some(g) => Ok(Some(g.id))
  }

  /**
   * `getTravelHourMinute()`: the hour and the minute groups parsed, or null
   * when the label does not match; a group too long for an int is a
   * NumberFormatException.
   */
  function TravelHourMinute(item: Option<string>): (r: Result<Option<(int, int)>>)
    ensures item.None? ==> r == Err(NullPointer)
    ensures r.Err? ==> r.exc == NullPointer || r.exc == NumberFormat
    ensures r.Ok? && r.value.Some? ==> r.value.value.0 >= 0 && r.value.value.1 >= 0
  {
    match item
    case None => Err(NullPointer)
    case Some(s) =>
      match Find(s, 0)
      case None => Ok(None)
      case Some(g) =>
        var hour :- ParseInt(g.hour);
        var minute :- ParseInt(g.minute);
        if hour >= 0 && minute >= 0 then Ok(Some((hour, minute))) else Ok(None)
  }

  /** The id of a travel is read back from its label. */
  lemma LabelIdReadsBack(t: CT.Travel, hour: int)
    requires Readable(t, hour)
    ensures SelectedTravel(Some(LabelWith(t, hour))) == Ok(Some(t.record.id))
  {
    FindLabel(t, hour, 0);
  }

  /** The hour written into a label and its minute are read back from it. */
  lemma LabelTimeReadsBack(t: CT.Travel, hour: int)
    requires Readable(t, hour)
    ensures TravelHourMinute(Some(LabelWith(t, hour))) == Ok(Some((hour, t.record.date.minute)))
  {
    FindLabel(t, hour, 0);
    ParseIntOfPad2(hour);
    ParseIntOfPad2(t.record.date.minute);
  }

  /** As written, a travel leaving at 14:30 is read back as leaving at 02:30. */
  lemma AfternoonReadsBackAsWritten(t: CT.Travel)
    requires Readable(t, 0) && 12 <= t.record.date.hour < 24
    ensures TravelHourMinute(Some(LabelAsWritten(t))) == Ok(Some((t.record.date.hour - 12, t.record.date.minute)))
  {
    var hour := t.record.date.hour - 12;
    assert LabelAsWritten(t) == LabelWith(t, hour);
    LabelTimeReadsBack(t, hour);
  }

  /** With `HOUR_OF_DAY`, the label gives back the departure time the travel was read with. */
  lemma DepartureReadsBack(t: CT.Travel)
    requires Readable(t, t.record.date.hour)
    ensures TravelHourMinute(Some(Label(t))) == Ok(Some((t.record.date.hour, t.record.date.minute)))
    ensures SelectedTravel(Some(Label(t))) == Ok(Some(t.record.id))
  {
    LabelTimeReadsBack(t, t.record.date.hour);
    LabelIdReadsBack(t, t.record.date.hour);
  }

  // ---------------------------------------------------------------------------
  // The connection label

  /** `updateConnectionIDLabel`: `clientID [connectionID]`. */
  function ConnectionLabel(clientID: string, connectionID: string): string {
    clientID + " [" + connectionID + "]"
  }

  /** A client id without spaces and the connection id can both be told from the label. */
  lemma ConnectionLabelInjective(a: string, b: string, c: string, d: string)
    requires ' ' !in a && ' ' !in c && ConnectionLabel(a, b) == ConnectionLabel(c, d)
    ensures a == c && b == d
  {
    var s := ConnectionLabel(a, b);
    assert s[|a|] == ' ' && s[|c|] == ' ';
    assert forall i :: 0 <= i < |a| ==> s[i] == a[i];
    assert forall i :: 0 <= i < |c| ==> s[i] == c[i];
    assert |a| == |c|;
    assert a == s[..|a|] == c;
    assert b == s[|a| + 2..|s| - 1] == d;
  }

  // ---------------------------------------------------------------------------
  // The panel

  /** The comparator's view of a client travel. */
  function TravelKey(t: CT.Travel): Key {
    KeyOf(t.record.origin, t.record.destiny, t.record.date)
  }

  /** The labels of the travels, in their order, as `updateTravels` writes them. */
  function Labels(ts: seq<CT.Travel>): (r: seq<string>)
    ensures |r| == |ts|
  {
    seq(|ts|, i requires 0 <= i < |ts| => LabelAsWritten(ts[i]))
  }

  lemma LabelsSnoc(ts: seq<CT.Travel>, i: nat)
    requires i < |ts|
    ensures Labels(ts[..i + 1]) == Labels(ts[..i]) + [LabelAsWritten(ts[i])]
  {
  }

  /**
   * The travel box and the connection label.  `removeAllItems` clears the
   * box and its selection, and the first item added to an empty box becomes
   * the selection.  `emptyLists` counts the calls to `receivedListEmpty`.
   */
  class NorthPanel {
    var items: seq<string>
    var selected: Option<string>
    var emptyLists: nat
    var connectionText: string

    constructor(clientID: string, connectionID: string)
      ensures items == [] && selected == None && emptyLists == 0
      ensures connectionText == ConnectionLabel(clientID, connectionID)
    {
      items := [];
      selected := None;
      emptyLists := 0;
      connectionText := ConnectionLabel(clientID, connectionID);
    }

    /**
     * `updateTravels(travels)`: a null or empty list leaves the box empty and
     * reports the empty list; otherwise the box lists the travels' labels in
     * the comparator's order.
     */
    method UpdateTravels(travels: Option<seq<CT.Travel>>)
      modifies this
      ensures travels.None? || |travels.value| == 0 ==> items == [] && emptyLists == old(emptyLists) + 1
      ensures travels.Some? && |travels.value| > 0 ==>
        items == Labels(Sort(travels.value, TravelKey)) && emptyLists == old(emptyLists)
      ensures selected == if |items| > 0 then Some(items[0]) else None
      ensures connectionText == old(connectionText)
    {
      items := [];
      selected := None;
      if travels.None? || |travels.value| == 0 {
        emptyLists := emptyLists + 1;
        return;
      }
      var sorted := Sort(travels.value, TravelKey);
      var i := 0;
      while i < |sorted|
        invariant 0 <= i <= |sorted|
        invariant items == Labels(sorted[..i])
        invariant selected == if i > 0 then Some(items[0]) else None
        invariant emptyLists == old(emptyLists) && connectionText == old(connectionText)
      {
        LabelsSnoc(sorted, i);
        items := items + [LabelAsWritten(sorted[i])];
        if |items| == 1 {
          selected := Some(items[0]);
        }
        i := i + 1;
      }
      assert sorted[..i] == sorted;
    }

    /** `updateConnectionIDLabel(clientID, connectionID)`. */
    method UpdateConnectionIDLabel(clientID: string, connectionID: string)
      modifies `connectionText
      ensures connectionText == ConnectionLabel(clientID, connectionID)
    {
      connectionText := ConnectionLabel(clientID, connectionID);
    }
  }

  /** The box lists every travel once per occurrence, each no later than the next in the comparator's order. */
  lemma ListedInOrder(ts: seq<CT.Travel>)
    ensures SortedBy(Sort(ts, TravelKey), TravelKey)
    ensures multiset(Sort(ts, TravelKey)) == multiset(ts)
    ensures |Labels(Sort(ts, TravelKey))| == |ts|
  {
    SortSorted(ts, TravelKey);
    SortPermutes(ts, TravelKey);
  }
}

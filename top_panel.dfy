/**
 * The date picker of the desktop application: the number of days of a month,
 * the leap-year rule, and the day list the day box is refilled with.
 */
module TopPanel {
  import opened Outcomes
  import opened Text

  /**
   * `GregorianCalendar.isLeapYear(year)` with the default cutover: the
   * Julian rule (every fourth year) up to 1582 and the Gregorian rule after.
   * Java tests `(year & 3) != 0` first; for every int that agrees with
   * `year % 4 != 0` taken Euclidean, as Dafny does.
   */
  predicate IsLeapYear(year: int) {
    year % 4 == 0 && (year <= 1582 || year % 100 != 0 || year % 400 == 0)
  }

  /** `daysInMonth(month, year)`: 31, 30, 29 or 28 for months 1 to 12, and -1 for any other month. */
  function DaysInMonth(month: int, year: int): (days: int)
    ensures 1 <= month <= 12 <==> days > 0
    ensures days == -1 || 28 <= days <= 31
    ensures month in {1, 3, 5, 7, 8, 10, 12} ==> days == 31
    ensures month in {4, 6, 9, 11} ==> days == 30
    ensures month == 2 ==> (days == 29 <==> IsLeapYear(year)) && (days == 28 <==> !IsLeapYear(year))
  {
    if month == 1 || month == 3 || month == 5 || month == 7 || month == 8 || month == 10 || month == 12 then 31
    else if month == 4 || month == 6 || month == 9 || month == 11 then 30
    else if month == 2 then (if IsLeapYear(year) then 29 else 28)
    else -1
  }

  /** The days of the first `months` months of `year`. */
  function DaysBefore(months: nat, year: int): int {
    if months == 0 then 0 else DaysBefore(months - 1, year) + DaysInMonth(months, year)
  }

  /** The twelve months add up to the length of the year. */
  lemma YearLength(year: int)
    ensures DaysBefore(12, year) == if IsLeapYear(year) then 366 else 365
  {
    var february := DaysInMonth(2, year);
    assert DaysBefore(1, year) == 31;
    assert DaysBefore(2, year) == 31 + february;
    assert DaysBefore(3, year) == 62 + february;
    assert DaysBefore(4, year) == 92 + february;
    assert DaysBefore(5, year) == 123 + february;
    assert DaysBefore(6, year) == 153 + february;
    assert DaysBefore(7, year) == 184 + february;
    assert DaysBefore(8, year) == 215 + february;
    assert DaysBefore(9, year) == 245 + february;
    assert DaysBefore(10, year) == 276 + february;
    assert DaysBefore(11, year) == 306 + february;
  }

  /** After 1582 the leap years repeat every 400 years, 97 of them in each cycle's centuries and years. */
  lemma GregorianCycle(year: int)
    requires year > 1582
    ensures IsLeapYear(year + 400) == IsLeapYear(year)
  {
    assert (year + 400) % 4 == year % 4;
    assert (year + 400) % 100 == year % 100;
    assert (year + 400) % 400 == year % 400;
  }

  /** Up to 1582 centuries are leap years; after it only every fourth century is. */
  lemma CenturyYears()
    ensures IsLeapYear(1500) && !IsLeapYear(1700) && !IsLeapYear(1900) && IsLeapYear(2000)
  {
  }

  /** The items `updateDays` puts in the day box for a month of `days` days: "1" up to the day count. */
  function DayItems(days: int): (items: seq<string>)
    ensures |items| == if days < 0 then 0 else days
  {
    seq(if days < 0 then 0 else days, i => IntToString(i + 1))
  }

  /** Every item reads back as its day, 1 up to the day count, and the days come in order. */
  lemma DayItemsReadBack(days: int, i: nat)
    requires days <= MaxInt32 && i < |DayItems(days)|
    ensures ParseInt(DayItems(days)[i]) == Ok(i + 1)
    ensures 1 <= i + 1 <= days
  {
    ParseIntOfIntToString(i + 1);
  }

  /** A day of the month is offered exactly when it lies between 1 and the day count. */
  lemma DayOffered(days: int, day: int)
    requires days <= MaxInt32
    ensures IntToString(day) in DayItems(days) <==> 1 <= day <= days
  {
    var items := DayItems(days);
    if 1 <= day <= days {
      assert items[day - 1] == IntToString(day);
    }
    if IntToString(day) in items {
      var i :| 0 <= i < |items| && items[i] == IntToString(day);
      IntToStringInjective(day, i + 1);
    }
  }

  /**
   * The day box of the panel.  `removeAllItems` empties it and clears the
   * selection; the first item added to an empty box becomes the selection,
   * and selecting "1" afterwards keeps it, or changes nothing when "1" is
   * not in the box.
   */
  class TopPanel {
    var dayItems: seq<string>
    var selectedDay: Option<string>

    constructor()
      ensures dayItems == [] && selectedDay == None
    {
      dayItems := [];
      selectedDay := None;
    }

    /** `updateDays(month, year)`: the day box holds the days of that month, "1" selected, or nothing. */
    method UpdateDays(month: int, year: int)
      modifies this
      ensures dayItems == DayItems(DaysInMonth(month, year))
      ensures selectedDay == if |dayItems| > 0 then Some("1") else None
    {
      dayItems := [];
      selectedDay := None;
      var i := 1;
      while i <= DaysInMonth(month, year)
        invariant 1 <= i && (i == 1 || i - 1 <= DaysInMonth(month, year))
        invariant dayItems == DayItems(i - 1)
        invariant selectedDay == if i > 1 then Some("1") else None
      {
        dayItems := dayItems + [IntToString(i)];
        if |dayItems| == 1 {
          selectedDay := Some(IntToString(i));
        }
        i := i + 1;
      }
      if "1" in dayItems {
        selectedDay := Some("1");
      }
    }

    /** `buildPanel` as written: the day box is filled for the 0-based month `GregorianCalendar.MONTH` returns. */
    method ShowTodayAsWritten(calendarMonth: int, year: int)
      modifies this
      ensures dayItems == DayItems(DaysInMonth(calendarMonth, year))
    {
      UpdateDays(calendarMonth, year);
    }

    /** `buildPanel` with the month converted to the 1-based numbering the month box and `daysInMonth` use. */
    method ShowToday(calendarMonth: int, year: int)
      modifies this
      ensures dayItems == DayItems(DaysInMonth(calendarMonth + 1, year))
    {
      UpdateDays(calendarMonth + 1, year);
    }
  }

  /** As written, a panel opened in January offers no day at all. */
  lemma JanuaryHasNoDaysAsWritten(year: int)
    ensures DayItems(DaysInMonth(0, year)) == []
  {
  }

  /** As written, a panel opened on 30 March 2023 does not offer the 30th: it lists February's 28 days. */
  lemma MarchThirtiethMissingAsWritten()
    ensures IntToString(30) !in DayItems(DaysInMonth(2, 2023))
  {
    DayOffered(DaysInMonth(2, 2023), 30);
  }

  /** With the month converted, today's day is always in the day box. */
  lemma TodayOffered(calendarMonth: int, year: int, day: int)
    requires 0 <= calendarMonth < 12 && 1 <= day <= DaysInMonth(calendarMonth + 1, year)
    ensures IntToString(day) in DayItems(DaysInMonth(calendarMonth + 1, year))
  {
    DayOffered(DaysInMonth(calendarMonth + 1, year), day);
  }
}

/**
 * The client's copy of a travel: the record its line constructor reads with
 * a `,`-delimited scanner, the seat count, the `toString` line and `equals`.
 * The constructor reads the same fields in the same order as the server's
 * travel, so the record and the parse are the server's.  The seat array it
 * allocates is never used by the client and is not modelled.
 */
module ClientTravel {
  import opened Outcomes
  import opened Text
  import ST = ServerTravel

  datatype Travel = Travel(record: ST.TravelRecord, seatsNumber: int)

  /**
   * `new Travel(line)`: a missing field or a date part that is no int is a
   * NoSuchElementException, a seat count below -1 a NegativeArraySizeException.
   */
  function Parse(line: string): (r: Result<Travel>)
    ensures r.Ok? <==> ST.ParseRecord(line).Ok? && ST.SizeTable(ST.ParseRecord(line).value).Ok?
    ensures r.Ok? ==> ST.ParseRecord(line) == Ok(r.value.record)
    ensures r.Ok? ==> ST.SeatsNumber(r.value.record.distribution) == Ok(r.value.seatsNumber)
    ensures r.Ok? ==> -1 <= r.value.seatsNumber < MaxInt32
    ensures r.Err? ==> IsNoSuchElement(r.exc) || r.exc == NegativeArraySize
  {
    match ST.ParseTravel(line)
    case Err(e) => Err(e)
    case Ok(parsed) => Ok(Travel(parsed.0, parsed.1))
  }

  function Id(t: Travel): string { t.record.id }
  function Origin(t: Travel): string { t.record.origin }
  function Destiny(t: Travel): string { t.record.destiny }
  function Date(t: Travel): ST.Date { t.record.date }
  function SeatsDistribution(t: Travel): string { t.record.distribution }
  function SeatsNumber(t: Travel): int { t.seatsNumber }
  function Info(t: Travel): string { t.record.info }

  /** The getters return the tokens of the line: id, origin, destiny, then the five date ints, distribution and info. */
  lemma GettersReadLine(line: string)
    requires Parse(line).Ok?
    ensures var t := Parse(line).value;
      var tokens := ScanTokens(line, ',');
      |tokens| >= 10 &&
      Id(t) == tokens[0] && Origin(t) == tokens[1] && Destiny(t) == tokens[2] &&
      ScanInt(tokens[3]) == Ok(Date(t).day) && ScanInt(tokens[4]) == Ok(Date(t).month) &&
      ScanInt(tokens[5]) == Ok(Date(t).year) && ScanInt(tokens[6]) == Ok(Date(t).hour) &&
      ScanInt(tokens[7]) == Ok(Date(t).minute) &&
      SeatsDistribution(t) == tokens[8] && Info(t) == tokens[9]
  {
    RecordReadsTokens(line, Parse(line).value.record);
  }

  lemma RecordReadsTokens(line: string, rec: ST.TravelRecord)
    requires ST.ParseRecord(line) == Ok(rec)
    ensures var tokens := ScanTokens(line, ',');
      |tokens| >= 10 &&
      rec.id == tokens[0] && rec.origin == tokens[1] && rec.destiny == tokens[2] &&
      ScanInt(tokens[3]) == Ok(rec.date.day) && ScanInt(tokens[4]) == Ok(rec.date.month) &&
      ScanInt(tokens[5]) == Ok(rec.date.year) && ScanInt(tokens[6]) == Ok(rec.date.hour) &&
      ScanInt(tokens[7]) == Ok(rec.date.minute) &&
      rec.distribution == tokens[8] && rec.info == tokens[9]
  {
  }

  /** `toString()`: the ten fields in the order the constructor reads them, separated by commas. */
  function ToString(t: Travel): string {
    ST.FormatRecord(t.record)
  }

  /** A parsed travel whose id and info are not empty is parsed back from its `toString()` line unchanged. */
  lemma ToStringReadsBack(line: string)
    requires Parse(line).Ok?
    requires Id(Parse(line).value) != "" && Info(Parse(line).value) != ""
    ensures Parse(ToString(Parse(line).value)) == Parse(line)
  {
    var t := Parse(line).value;
    ParsedWellFormed(line);
    ST.ParseFormatRecord(t.record);
  }

  /** What the scanner reads holds no comma, and its date parts are ints. */
  lemma ParsedWellFormed(line: string)
    requires Parse(line).Ok?
    requires Id(Parse(line).value) != "" && Info(Parse(line).value) != ""
    ensures ST.WellFormed(Parse(line).value.record)
  {
    var tokens := ScanTokens(line, ',');
    RecordReadsTokens(line, Parse(line).value.record);
    ScanTokensFree(line, ',');
    assert forall i :: 0 <= i < |tokens| ==> ',' !in tokens[i];
    ScanIntRange(tokens[3]);
    ScanIntRange(tokens[4]);
    ScanIntRange(tokens[5]);
    ScanIntRange(tokens[6]);
    ScanIntRange(tokens[7]);
  }

  lemma ScanIntRange(token: string)
    ensures ScanInt(token).Ok? ==> InInt32(ScanInt(token).value)
  {
  }

  /** No scanner token contains the delimiter. */
  lemma ScanTokensFree(s: string, d: char)
    ensures SeparatorFree(ScanTokens(s, d), d)
  {
    FieldsFree(s, d);
  }

  lemma {:induction false} FieldsFree(s: string, d: char)
    ensures SeparatorFree(Fields(s, d), d)
    decreases |s|
  {
    if |s| > 0 {
      FieldsFree(s[1..], d);
    }
  }

  /** `equals`: two travels are equal exactly when their ids are. */
  predicate Equals(a: Travel, b: Travel) {
    a.record.id == b.record.id
  }

  /** Two lines describe equal travels exactly when their first tokens agree, whatever the other fields hold. */
  lemma EqualsByFirstToken(a: string, b: string)
    requires Parse(a).Ok? && Parse(b).Ok?
    ensures Equals(Parse(a).value, Parse(b).value) <==> ScanTokens(a, ',')[0] == ScanTokens(b, ',')[0]
  {
    GettersReadLine(a);
    GettersReadLine(b);
  }
}

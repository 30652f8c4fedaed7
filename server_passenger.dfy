/** The server's passenger record: a DNI, a name and a surname, stored as one comma-separated line. */
module ServerPassenger {
  import opened Outcomes
  import opened Text

  /** The getters return these three fields, as the constructor set them. */
  datatype Passenger = Passenger(dni: string, name: string, surname: string)

  /**
   * `new Passenger(line)`: the first three tokens of a scanner over the line
   * with `,` as delimiter; a line with fewer raises NoSuchElementException.
   */
  function ParsePassenger(line: string): (r: Result<Passenger>)
    ensures r.Ok? <==> |ScanTokens(line, ',')| >= 3
    ensures r.Ok? ==> r.value == Passenger(ScanTokens(line, ',')[0], ScanTokens(line, ',')[1], ScanTokens(line, ',')[2])
    ensures r.Err? ==> r.exc == NoSuchElement
  {
    var tokens := ScanTokens(line, ',');
    var dni :- NextToken(tokens, 0);
    var name :- NextToken(tokens, 1);
    var surname :- NextToken(tokens, 2);
    Ok(Passenger(dni, name, surname))
  }

  /** `toString()`: the three fields joined by commas. */
  function ToString(p: Passenger): string {
    p.dni + "," + p.name + "," + p.surname
  }

  /** The fields contain no comma, the separator of the line. */
  predicate CommaFree(p: Passenger) {
    ',' !in p.dni && ',' !in p.name && ',' !in p.surname
  }

  /**
   * For comma-free fields the line `toString` writes parses back to the same
   * passenger exactly when the DNI and the surname are non-empty: the scanner
   * skips an empty first field and an empty last one, while an empty name
   * in the middle is read as it is.
   */
  lemma ParseToString(p: Passenger)
    requires CommaFree(p)
    ensures ParsePassenger(ToString(p)) == Ok(p) <==> p.dni != "" && p.surname != ""
  {
    var fs := [p.dni, p.name, p.surname];
    FieldsOfJoin(fs, ',');
    assert Join([p.name, p.surname], ',') == p.name + [','] + p.surname by {
      assert [p.name, p.surname][1..] == [p.surname];
    }
    assert fs[1..] == [p.name, p.surname];
    assert Join(fs, ',') == ToString(p);
  }

  /** `save(printWriter)`: the one line printed is `toString()`, so it reads back as the passenger. */
  function SaveLines(p: Passenger): (lines: seq<string>)
    ensures |lines| == 1
    ensures CommaFree(p) && p.dni != "" && p.surname != "" ==> ParsePassenger(lines[0]) == Ok(p)
  {
    assert CommaFree(p) ==> (ParsePassenger(ToString(p)) == Ok(p) <==> p.dni != "" && p.surname != "") by {
      if CommaFree(p) {
        ParseToString(p);
      }
    }
    [ToString(p)]
  }

  /** `equals`: two passengers are equal exactly when their DNIs are. */
  predicate Equals(a: Passenger, b: Passenger) {
    a.dni == b.dni
  }
}

/**
 * The passenger of the desktop application: the same three fields and the
 * same comma-separated line as the server's passenger, but read back with
 * `String.split` instead of a scanner.
 */
module ModelPassenger {
  import opened Outcomes
  import opened Text
  import opened ServerPassenger

  /**
   * `new Passenger(line)`: elements 0, 1 and 2 of `line.split(",")`; a line
   * that splits into fewer raises ArrayIndexOutOfBoundsException.
   */
  function ParseLine(line: string): (r: Result<Passenger>)
    ensures r.Err? ==> r.exc == IndexOutOfBounds
  {
    var elements := Split(line, ',');
    if |elements| < 3 then Err(IndexOutOfBounds)
    else Ok(Passenger(elements[0], elements[1], elements[2]))
  }

  /**
   * For comma-free fields the `toString()` line parses back to the same
   * passenger exactly when the surname is non-empty: `split` keeps leading
   * and inner empty fields but drops trailing ones, so an empty surname
   * leaves fewer than three elements.
   */
  lemma ParseLineToString(p: Passenger)
    requires CommaFree(p)
    ensures ParseLine(ToString(p)) == Ok(p) <==> p.surname != ""
  {
    var fs := [p.dni, p.name, p.surname];
    assert Join([p.name, p.surname], ',') == p.name + [','] + p.surname by {
      assert [p.name, p.surname][1..] == [p.surname];
    }
    assert fs[1..] == [p.name, p.surname];
    assert Join(fs, ',') == ToString(p);
    if p.surname != "" {
      SplitOfJoin(fs, ',');
    } else {
      JoinHasSeparator(fs, ',');
      FieldsOfJoin(fs, ',');
      var r := DropTrailingEmpty(fs);
      assert Split(ToString(p), ',') == r;
    }
  }

  /** Fields after the third are read and ignored. */
  lemma ParseLineIgnoresExtraFields(p: Passenger, extra: string)
    requires CommaFree(p) && p.surname != ""
    ensures ParseLine(ToString(p) + "," + extra) == Ok(p)
  {
    var fs := [p.dni, p.name, p.surname];
    assert Join([p.name, p.surname], ',') == p.name + [','] + p.surname by {
      assert [p.name, p.surname][1..] == [p.surname];
    }
    assert fs[1..] == [p.name, p.surname];
    assert Join(fs, ',') == ToString(p);
    FieldsOfJoin(fs, ',');
    var line := ToString(p) + "," + extra;
    assert line == ToString(p) + [','] + extra;
    FieldsAfterJoin(fs, extra);
    assert line[|p.dni|] == ',';
    var r := DropTrailingEmpty(Fields(line, ','));
    assert |r| >= 3 by {
      assert Fields(line, ',')[2] == p.surname != "";
    }
  }

  /** The fields of a joined line followed by more text start with the joined fields. */
  lemma {:induction false} FieldsAfterJoin(fs: seq<string>, extra: string)
    requires |fs| >= 1 && SeparatorFree(fs, ',')
    ensures |Fields(Join(fs, ',') + [','] + extra, ',')| >= |fs|
    ensures Fields(Join(fs, ',') + [','] + extra, ',')[..|fs|] == fs
    decreases |fs|
  {
    if |fs| == 1 {
      assert Join(fs, ',') == fs[0];
      FieldsOfConcat(fs[0], ',', extra);
    } else {
      var tail := Join(fs[1..], ',');
      FieldsAfterJoin(fs[1..], extra);
      assert Join(fs, ',') + [','] + extra == fs[0] + [','] + (tail + [','] + extra);
      FieldsOfConcat(fs[0], ',', tail + [','] + extra);
      assert [fs[0]] + fs[1..] == fs;
    }
  }

  /** `save(printWriter)`: it prints `toString()`, which reads back as the passenger. */
  function SaveLines(p: Passenger): (lines: seq<string>)
    ensures |lines| == 1
    ensures CommaFree(p) && p.surname != "" ==> ParseLine(lines[0]) == Ok(p)
  {
    assert CommaFree(p) && p.surname != "" ==> ParseLine(ToString(p)) == Ok(p) by {
      if CommaFree(p) {
        ParseLineToString(p);
      }
    }
    [ToString(p)]
  }
}

/**
 * The message of the server's SeatsReadException, chosen by a string code.
 * The exception is a NumberFormatException (see `Outcomes.IsNumberFormat`)
 * whose code and extra information are fixed when it is built.
 */
module ServerSeatsReadException {
  import opened Outcomes

  const TravelsReadError: string := "Error while reading a travels status file element. Read: "
  const SeatAssignError: string := "Error assigning a seat."

  /** String concatenation writes a null reference as `null`. */
  function ExtraText(extraInfo: Option<string>): string {
    match extraInfo
    case None => "null"
    case Some(s) => s
  }

  /** `getMessage()`: `TRAVEL` and `SEAT` have a text, every other code the empty message. */
  function GetMessage(code: string, extraInfo: Option<string>): string {
    if code == "TRAVEL" then TravelsReadError + ExtraText(extraInfo)
    else if code == "SEAT" then SeatAssignError
    else ""
  }

  /**
   * The message is empty exactly for the codes without a text; a `TRAVEL`
   * message carries the element that was read after the fixed prefix.
   */
  lemma MessageCases(code: string, extraInfo: Option<string>)
    ensures GetMessage(code, extraInfo) == "" <==> code != "TRAVEL" && code != "SEAT"
    ensures code == "TRAVEL" ==>
      GetMessage(code, extraInfo)[..|TravelsReadError|] == TravelsReadError &&
      GetMessage(code, extraInfo)[|TravelsReadError|..] == ExtraText(extraInfo)
    ensures code == "SEAT" ==> GetMessage(code, extraInfo) == SeatAssignError
  {
    if code == "TRAVEL" {
      assert |GetMessage(code, extraInfo)| >= |TravelsReadError| > 0;
    }
  }

  /** A SeatsReadException is caught by `catch (NumberFormatException e)`. */
  lemma IsNumberFormatException(code: string, extraInfo: Option<string>)
    ensures IsNumberFormat(SeatsRead(code, extraInfo))
  {
  }
}

/** The message of the older SeatsReadException, chosen by an int code. */
module LegacySeatsReadException {
  import opened Outcomes

  const TravelsReadError: string := "Error while reading a travels status file element. Readed: "
  const SeatAssignError: string := "Error assigning a seat."

  function ExtraText(extraInfo: Option<string>): string {
    match extraInfo
    case None => "null"
    case Some(s) => s
  }

  /** `getMessage()`: code 1 and code 2 have a text, every other code the empty message. */
  function GetMessage(code: int, extraInfo: Option<string>): string {
    if code == 1 then TravelsReadError + ExtraText(extraInfo)
    else if code == 2 then SeatAssignError
    else ""
  }

  lemma MessageCases(code: int, extraInfo: Option<string>)
    ensures GetMessage(code, extraInfo) == "" <==> code != 1 && code != 2
    ensures code == 1 ==>
      GetMessage(code, extraInfo)[..|TravelsReadError|] == TravelsReadError &&
      GetMessage(code, extraInfo)[|TravelsReadError|..] == ExtraText(extraInfo)
    ensures code == 2 ==> GetMessage(code, extraInfo) == SeatAssignError
  {
    if code == 1 {
      assert |GetMessage(code, extraInfo)| >= |TravelsReadError| > 0;
    }
  }
}

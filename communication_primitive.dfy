/**
 * The verbs of the line protocol between sales desks and the server: every
 * request, reply and control message starts with one of sixteen symbols.
 */
module CommunicationPrimitive {
  import opened Outcomes
  import opened Text

  datatype Primitive =
    | ConnectPush | DisconnectPush | NewConnectionId | Test
    | NewPassenger | DeletePassenger | SearchPassenger | SearchTravel
    | WhoSitting | SearchTravelsPerDate | IsSeatFree | Assign | Deallocate
    | End | OkReply | NokReply

  /** The text each primitive is written as (`toString`). */
  function Symbol(p: Primitive): string {
    match p
    case ConnectPush => "connect"
    case DisconnectPush => "disconnect"
    case NewConnectionId => "new_conection_id"
    case Test => "test"
    case NewPassenger => "new_passenger"
    case DeletePassenger => "delete_passenger"
    case SearchPassenger => "search_passenger"
    case SearchTravel => "search_travel"
    case WhoSitting => "who_is_sitting"
    case SearchTravelsPerDate => "search_travels_per_date"
    case IsSeatFree => "is_seat_free"
    case Assign => "assign"
    case Deallocate => "deallocate"
    case End => "end"
    case OkReply => "ok"
    case NokReply => "nok"
  }

  /** The primitives in declaration order (`values()`). */
  const Values: seq<Primitive> := [
    ConnectPush, DisconnectPush, NewConnectionId, Test, NewPassenger,
    DeletePassenger, SearchPassenger, SearchTravel, WhoSitting,
    SearchTravelsPerDate, IsSeatFree, Assign, Deallocate, End,
    OkReply, NokReply]

  /** The alternatives of the pattern a primitive token must match in full: the symbols, in declaration order. */
  const Alternatives: seq<string> := [
    Symbol(ConnectPush), Symbol(DisconnectPush), Symbol(NewConnectionId), Symbol(Test), Symbol(NewPassenger),
    Symbol(DeletePassenger), Symbol(SearchPassenger), Symbol(SearchTravel), Symbol(WhoSitting),
    Symbol(SearchTravelsPerDate), Symbol(IsSeatFree), Symbol(Assign), Symbol(Deallocate), Symbol(End),
    Symbol(OkReply), Symbol(NokReply)]

  /** Every primitive is among the values. */
  lemma ValuesComplete(p: Primitive)
    ensures p in Values
  {
    match p
    case ConnectPush => assert Values[0] == p;
    case DisconnectPush => assert Values[1] == p;
    case NewConnectionId => assert Values[2] == p;
    case Test => assert Values[3] == p;
    case NewPassenger => assert Values[4] == p;
    case DeletePassenger => assert Values[5] == p;
    case SearchPassenger => assert Values[6] == p;
    case SearchTravel => assert Values[7] == p;
    case WhoSitting => assert Values[8] == p;
    case SearchTravelsPerDate => assert Values[9] == p;
    case IsSeatFree => assert Values[10] == p;
    case Assign => assert Values[11] == p;
    case Deallocate => assert Values[12] == p;
    case End => assert Values[13] == p;
    case OkReply => assert Values[14] == p;
    case NokReply => assert Values[15] == p;
  }

  /** Alternative i is the symbol of the i-th primitive. */
  lemma AlternativesAreSymbols()
    ensures |Alternatives| == |Values|
    ensures forall i :: 0 <= i < |Values| ==> Alternatives[i] == Symbol(Values[i])
  {
  }

  /** The if-chain over a token that already matched the pattern; the last branch answers NOK. */
  function FromToken(token: string): Primitive {
    if token == "connect" then ConnectPush
    else if token == "disconnect" then DisconnectPush
    else if token == "new_conection_id" then NewConnectionId
    else if token == "test" then Test
    else if token == "new_passenger" then NewPassenger
    else if token == "delete_passenger" then DeletePassenger
    else if token == "search_passenger" then SearchPassenger
    else if token == "search_travel" then SearchTravel
    else if token == "who_is_sitting" then WhoSitting
    else if token == "search_travels_per_date" then SearchTravelsPerDate
    else if token == "is_seat_free" then IsSeatFree
    else if token == "assign" then Assign
    else if token == "deallocate" then Deallocate
    else if token == "end" then End
    else if token == "ok" then OkReply
    else NokReply
  }

  /**
   * `newPrimitive(new Scanner(line))`: the first whitespace-delimited token
   * of the line must be one of the symbols; a blank line has no token.
   */
  function NewPrimitive(line: string): Result<Primitive> {
    match FirstToken(line)
    case None => Err(NoSuchElement)
    case Some(token) =>
      if token in Alternatives then Ok(FromToken(token)) else Err(InputMismatch)
  }

  /** No two primitives share a symbol. */
  lemma SymbolInjective(p: Primitive, q: Primitive)
    ensures Symbol(p) == Symbol(q) ==> p == q
  {
  }

  /** Every symbol is a pattern alternative, non-empty and free of whitespace, and the if-chain maps it back. */
  lemma SymbolIsWord(p: Primitive)
    ensures Symbol(p) in Alternatives
    ensures |Symbol(p)| > 0 && NoWhitespace(Symbol(p))
    ensures FromToken(Symbol(p)) == p
  {
    ValuesComplete(p);
    AlternativesAreSymbols();
    var s := Symbol(p);
    forall i | 0 <= i < |s| ensures !IsWhitespace(s[i]) {
      SymbolLetters(p, i);
    }
    FromTokenOfSymbol(p);
  }

  // The sixteen symbols are checked a quarter of the declaration order at a time.


  /** Symbols are written in lower-case letters and underscores. */
  lemma SymbolLetters(p: Primitive, i: int)
    requires 0 <= i < |Symbol(p)|
    ensures 'a' <= Symbol(p)[i] <= 'z' || Symbol(p)[i] == '_'
  {
    if p in {ConnectPush, DisconnectPush, NewConnectionId, Test} {
      FirstQuarterLetters(p, i);
    } else if p in {NewPassenger, DeletePassenger, SearchPassenger, SearchTravel} {
      SecondQuarterLetters(p, i);
    } else if p in {WhoSitting, SearchTravelsPerDate, IsSeatFree, Assign} {
      ThirdQuarterLetters(p, i);
    } else {
      FourthQuarterLetters(p, i);
    }
  }

  lemma FirstQuarterLetters(p: Primitive, i: int)
    requires p in {ConnectPush, DisconnectPush, NewConnectionId, Test} && 0 <= i < |Symbol(p)|
    ensures 'a' <= Symbol(p)[i] <= 'z' || Symbol(p)[i] == '_'
  {
  }

  lemma SecondQuarterLetters(p: Primitive, i: int)
    requires p in {NewPassenger, DeletePassenger, SearchPassenger, SearchTravel} && 0 <= i < |Symbol(p)|
    ensures 'a' <= Symbol(p)[i] <= 'z' || Symbol(p)[i] == '_'
  {
  }

  lemma ThirdQuarterLetters(p: Primitive, i: int)
    requires p in {WhoSitting, SearchTravelsPerDate, IsSeatFree, Assign} && 0 <= i < |Symbol(p)|
    ensures 'a' <= Symbol(p)[i] <= 'z' || Symbol(p)[i] == '_'
  {
  }

  lemma FourthQuarterLetters(p: Primitive, i: int)
    requires p in {Deallocate, End, OkReply, NokReply} && 0 <= i < |Symbol(p)|
    ensures 'a' <= Symbol(p)[i] <= 'z' || Symbol(p)[i] == '_'
  {
  }

  /** The if-chain takes each symbol to its own primitive. */
  lemma FromTokenOfSymbol(p: Primitive)
    ensures FromToken(Symbol(p)) == p
  {
    if p in {ConnectPush, DisconnectPush, NewConnectionId, Test} {
      FirstQuarterReadsBack(p);
    } else if p in {NewPassenger, DeletePassenger, SearchPassenger, SearchTravel} {
      SecondQuarterReadsBack(p);
    } else if p in {WhoSitting, SearchTravelsPerDate, IsSeatFree, Assign} {
      ThirdQuarterReadsBack(p);
    } else {
      FourthQuarterReadsBack(p);
    }
  }

  lemma FirstQuarterReadsBack(p: Primitive)
    requires p in {ConnectPush, DisconnectPush, NewConnectionId, Test}
    ensures FromToken(Symbol(p)) == p
  {
  }

  lemma SecondQuarterReadsBack(p: Primitive)
    requires p in {NewPassenger, DeletePassenger, SearchPassenger, SearchTravel}
    ensures FromToken(Symbol(p)) == p
  {
  }

  lemma ThirdQuarterReadsBack(p: Primitive)
    requires p in {WhoSitting, SearchTravelsPerDate, IsSeatFree, Assign}
    ensures FromToken(Symbol(p)) == p
  {
  }

  lemma FourthQuarterReadsBack(p: Primitive)
    requires p in {Deallocate, End, OkReply, NokReply}
    ensures FromToken(Symbol(p)) == p
  {
  }

  /** The pattern alternatives are exactly the symbols. */
  lemma AlternativeIsSymbol(token: string)
    requires token in Alternatives
    ensures Symbol(FromToken(token)) == token
  {
    var i :| 0 <= i < |Alternatives| && Alternatives[i] == token;
    AlternativesAreSymbols();
    FromTokenOfSymbol(Values[i]);
  }

  /**
   * A line is read as primitive `p` exactly when its first token is the
   * symbol of `p`; in particular NOK is only read from "nok".
   */
  lemma NewPrimitiveOk(line: string, p: Primitive)
    ensures NewPrimitive(line) == Ok(p) <==> FirstToken(line) == Some(Symbol(p))
  {
    SymbolIsWord(p);
    match FirstToken(line)
    case None =>
    case Some(token) =>
      if token in Alternatives {
        AlternativeIsSymbol(token);
      }
  }

  /** A line whose first token is no symbol raises InputMismatchException; a blank one NoSuchElementException. */
  lemma NewPrimitiveErr(line: string)
    ensures NewPrimitive(line) == Err(NoSuchElement) <==> FirstToken(line) == None
    ensures NewPrimitive(line) == Err(InputMismatch) <==>
      FirstToken(line).Some? && forall p :: Symbol(p) != FirstToken(line).value
  {
    match FirstToken(line)
    case None =>
    case Some(token) =>
      if token in Alternatives {
        AlternativeIsSymbol(token);
      } else {
        forall p ensures Symbol(p) != token {
          SymbolIsWord(p);
        }
      }
  }

  /** The line a sender writes for `p` is read back as `p`, whatever follows it after a space. */
  lemma NewPrimitiveOfSymbol(p: Primitive, sep: char, rest: string)
    requires IsWhitespace(sep)
    ensures NewPrimitive(Symbol(p)) == Ok(p)
    ensures NewPrimitive(Symbol(p) + [sep] + rest) == Ok(p)
  {
    SymbolIsWord(p);
    FirstTokenOfWord(Symbol(p), sep, rest);
  }
}

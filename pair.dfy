/** The seat-and-passenger tuple a legacy travel keeps in each occupied slot of its seat table. */
module ModelPair {

  class Pair {
    var seat: int
    var passengerID: string

    constructor (seat: int, passengerID: string)
      ensures GetSeat() == seat && GetPassengerID() == passengerID
    {
      this.seat := seat;
      this.passengerID := passengerID;
    }

    function GetSeat(): int
      reads this
    {
      seat
    }

    function GetPassengerID(): string
      reads this
    {
      passengerID
    }

    /** `setSeat`: the seat is replaced, the passenger stays. */
    method SetSeat(newSeat: int)
      modifies this
      ensures GetSeat() == newSeat
      ensures GetPassengerID() == old(GetPassengerID())
    {
      seat := newSeat;
    }

    /** `setPassengerID`: the passenger is replaced, the seat stays. */
    method SetPassengerID(newPassengerID: string)
      modifies this
      ensures GetPassengerID() == newPassengerID
      ensures GetSeat() == old(GetSeat())
    {
      passengerID := newPassengerID;
    }
  }
}

/** The copy of the same tuple in the default package, used by the semicolon-separated travel. */
module LegacyPair {

  class Pair {
    var seat: int
    var passengerID: string

    constructor (seat: int, passengerID: string)
      ensures GetSeat() == seat && GetPassengerID() == passengerID
    {
      this.seat := seat;
      this.passengerID := passengerID;
    }

    function GetSeat(): int
      reads this
    {
      seat
    }

    function GetPassengerID(): string
      reads this
    {
      passengerID
    }

    /** `setSeat`: the seat is replaced, the passenger stays. */
    method SetSeat(newSeat: int)
      modifies this
      ensures GetSeat() == newSeat
      ensures GetPassengerID() == old(GetPassengerID())
    {
      seat := newSeat;
    }

    /** `setPassengerID`: the passenger is replaced, the seat stays. */
    method SetPassengerID(newPassengerID: string)
      modifies this
      ensures GetPassengerID() == newPassengerID
      ensures GetSeat() == old(GetSeat())
    {
      passengerID := newPassengerID;
    }
  }
}

/**
 The records of the hotel application: rooms with their status and in-room
 controls, bookings, users and the per-room state of the simulated device link.
 Timestamps are milliseconds since the epoch, prices are whole currency units.
 */
module Types {

  datatype Status = Available | Occupied | Maintenance

  datatype Role = Guest | Admin

  /** The three independent in-room switches. */
  datatype Control = Light | Ac | Power

  datatype Controls = Controls(light: bool, ac: bool, power: bool) {

    /** The value of one switch. */
    function Get(c: Control): bool {
      match c
      case Light => light
      case Ac => ac
      case Power => power
    }

    /** The same switches with `c` negated. */
    function Flip(c: Control): (r: Controls)
      ensures r.Get(c) == !Get(c)
      ensures forall d: Control :: d != c ==> r.Get(d) == Get(d)
    {
      match c
      case Light => this.(light := !light)
      case Ac => this.(ac := !ac)
      case Power => this.(power := !power)
    }
  }

  /** Two switch records are equal exactly when every switch agrees. */
  lemma ControlsEqual(x: Controls, y: Controls)
    requires forall c: Control :: x.Get(c) == y.Get(c)
    ensures x == y
  {
    assert x.Get(Light) == y.Get(Light);
    assert x.Get(Ac) == y.Get(Ac);
    assert x.Get(Power) == y.Get(Power);
  }

  datatype Room = Room(
    id: string,
    number: string,
    roomType: string,
    status: Status,
    amenities: seq<string>,
    pricePerNight: int,
    currentControls: Controls)

  /** A reservation; the dates are the UTC midnights of the check-in and check-out days. */
  datatype Booking = Booking(
    id: string,
    roomId: string,
    roomNumber: string,
    guestName: string,
    guestId: string,
    checkInDate: int,
    checkOutDate: int,
    totalPrice: int)

  datatype User = User(id: string, name: string, email: string, role: Role)

  datatype LinkState = LinkState(connected: bool, statusMessage: string)
}

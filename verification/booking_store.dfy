/**
 The booking ledger. A successful booking appends to the ledger and marks
 the room occupied in the registry, so the model keeps both in one record.
 */
module BookingStore {
  import opened Options
  import opened Types
  import Seqs
  import RoomStore

  datatype Hotel = Hotel(roomStore: RoomStore.RoomState, bookings: seq<Booking>)

  /** `addBooking` returns the new booking, or null with the state untouched. */
  datatype AddOutcome = AddOutcome(hotel: Hotel, booking: Option<Booking>)

  /**
   Milliseconds in a day: 1000 * 3600 * 24. `Nights` and `DayStart` write
   the number out so that dividing by it stays linear arithmetic.
   */
  const DayMs: int := 86_400_000

  /** `Math.ceil((checkOut - checkIn) / DayMs)` on integer milliseconds. */
  function Nights(checkIn: int, checkOut: int): (n: int)
    ensures (n - 1) * 86_400_000 < checkOut - checkIn <= n * 86_400_000
    ensures n > 0 <==> checkIn < checkOut
  {
    -((checkIn - checkOut) / 86_400_000)
  }

  /**
   The UTC midnight of the day holding `t`: the date `toISOString()` keeps
   before the 'T', read back as a timestamp.
   */
  function DayStart(t: int): (d: int)
    ensures d <= t < d + 86_400_000
    ensures d % 86_400_000 == 0
  {
    (t / 86_400_000) * 86_400_000
  }

  /**
   The price of `nights` nights at `price` a night, added up night by night.
   Spelling the product out keeps the solver away from nonlinear arithmetic
   wherever a booking's price is carried along but never inspected;
   `ChargeIsProduct` connects it to `nights * price`.
   */
  function Charge(nights: nat, price: int): int
    decreases nights
  {
    if nights == 0 then 0 else Charge(nights - 1, price) + price
  }

  /** The nightly sum is the product. */
  lemma {:induction false} ChargeIsProduct(nights: nat, price: int)
    ensures Charge(nights, price) == nights * price
    decreases nights
  {
    if nights > 0 {
      ChargeIsProduct(nights - 1, price);
    }
  }

  /** A later instant never starts an earlier day. */
  lemma DayStartMonotonic(t: int, u: int)
    requires t <= u
    ensures DayStart(t) <= DayStart(u)
  {
  }

  /** The first room with id `roomId` exists and is available. */
  ghost predicate Bookable(rooms: seq<Room>, roomId: string) {
    exists i :: RoomStore.FirstWithId(rooms, roomId, i) && rooms[i].status == Available
  }

  /** The availability check reads the lookup: bookable exactly when the lookup finds an available room. */
  lemma BookableIffLookupAvailable(s: RoomStore.RoomState, roomId: string)
    ensures Bookable(s.rooms, roomId) <==>
              RoomStore.GetRoomById(s, roomId).Some? && RoomStore.GetRoomById(s, roomId).value.status == Available
  {
    var found := RoomStore.GetRoomById(s, roomId);
    if found.Some? {
      var i :| RoomStore.FirstWithId(s.rooms, roomId, i) && s.rooms[i] == found.value;
      forall j | RoomStore.FirstWithId(s.rooms, roomId, j)
        ensures j == i
      {
      }
    }
  }

  /**
   Books `room` for a guest. Rejected when the registry's copy of the room is
   missing or not available, or when the stay covers no night; otherwise the
   total is nights times the nightly price of the room PASSED IN, the booking
   is appended and every room with that id becomes occupied.
   */
  function AddBooking(h: Hotel, guestId: string, guestName: string, room: Room,
                      checkIn: int, checkOut: int, bookingId: string): (r: AddOutcome)
    ensures r.booking.Some? <==> Bookable(h.roomStore.rooms, room.id) && checkIn < checkOut
    ensures r.booking.None? ==> r.hotel == h
    ensures r.booking.Some? ==>
              var b := r.booking.value;
              && b.id == bookingId
              && b.roomId == room.id && b.roomNumber == room.number
              && b.guestId == guestId && b.guestName == guestName
              && b.checkInDate == DayStart(checkIn) && b.checkOutDate == DayStart(checkOut)
              && b.checkInDate <= b.checkOutDate
              && b.totalPrice == Charge(Nights(checkIn, checkOut), room.pricePerNight)
              && r.hotel.bookings == h.bookings + [b]
              && r.hotel.roomStore == RoomStore.UpdateRoomStatus(h.roomStore, room.id, Occupied)
  {
    match RoomStore.GetRoomById(h.roomStore, room.id)
    case None => AddOutcome(h, None)
    case Some(target) =>
      if target.status != Available then
        AddOutcome(h, None)
      else
        var nights := Nights(checkIn, checkOut);
        if nights <= 0 then AddOutcome(h, None)
        else
          DayStartMonotonic(checkIn, checkOut);
          var b := Booking(bookingId, room.id, room.number, guestName, guestId,
                           DayStart(checkIn), DayStart(checkOut), Charge(nights, room.pricePerNight));
          AddOutcome(Hotel(RoomStore.UpdateRoomStatus(h.roomStore, room.id, Occupied), h.bookings + [b]), Some(b))
  }

  /** An accepted booking costs the number of nights times the nightly price of the room passed in. */
  lemma AddBookingPrice(h: Hotel, guestId: string, guestName: string, room: Room,
                        checkIn: int, checkOut: int, bookingId: string)
    requires AddBooking(h, guestId, guestName, room, checkIn, checkOut, bookingId).booking.Some?
    ensures AddBooking(h, guestId, guestName, room, checkIn, checkOut, bookingId).booking.value.totalPrice
              == Nights(checkIn, checkOut) * room.pricePerNight
  {
    ChargeIsProduct(Nights(checkIn, checkOut), room.pricePerNight);
  }

  /** The bookings made by guest `guestId`, in ledger order. */
  function GetGuestBookings(h: Hotel, guestId: string): (r: seq<Booking>)
    ensures forall b :: b in r <==> b in h.bookings && b.guestId == guestId
  {
    Seqs.Filter(h.bookings, (b: Booking) => b.guestId == guestId)
  }

  /** The first booking with id `bookingId`, if any. */
  function GetBookingById(h: Hotel, bookingId: string): (r: Option<Booking>)
    ensures r.None? <==> forall k :: 0 <= k < |h.bookings| ==> h.bookings[k].id != bookingId
    ensures r.Some? ==> r.value.id == bookingId && r.value in h.bookings
    ensures r.Some? ==> exists k :: 0 <= k < |h.bookings| && h.bookings[k] == r.value &&
                                    forall j :: 0 <= j < k ==> h.bookings[j].id != bookingId
  {
    match Seqs.FindIndex(h.bookings, (b: Booking) => b.id == bookingId)
    case None => None
    case Some(k) => Some(h.bookings[k])
  }

  /** After a successful booking the room is found occupied, so booking it again is refused. */
  lemma NoSecondBooking(h: Hotel, guestId: string, guestName: string, room: Room,
                        checkIn: int, checkOut: int, bookingId: string,
                        guestId2: string, guestName2: string, room2: Room,
                        checkIn2: int, checkOut2: int, bookingId2: string)
    requires AddBooking(h, guestId, guestName, room, checkIn, checkOut, bookingId).booking.Some?
    requires room2.id == room.id
    ensures var h' := AddBooking(h, guestId, guestName, room, checkIn, checkOut, bookingId).hotel;
            AddBooking(h', guestId2, guestName2, room2, checkIn2, checkOut2, bookingId2).booking.None?
  {
    AddBookingOccupies(h, guestId, guestName, room, checkIn, checkOut, bookingId);
  }

  /** After a successful booking every room with the booked id is occupied, and the lookup says so. */
  lemma AddBookingOccupies(h: Hotel, guestId: string, guestName: string, room: Room,
                           checkIn: int, checkOut: int, bookingId: string)
    requires AddBooking(h, guestId, guestName, room, checkIn, checkOut, bookingId).booking.Some?
    ensures var h' := AddBooking(h, guestId, guestName, room, checkIn, checkOut, bookingId).hotel;
            && |h'.roomStore.rooms| == |h.roomStore.rooms|
            && (forall i :: 0 <= i < |h'.roomStore.rooms| && h'.roomStore.rooms[i].id == room.id ==>
                 h'.roomStore.rooms[i].status == Occupied)
            && RoomStore.GetRoomById(h'.roomStore, room.id).Some?
            && RoomStore.GetRoomById(h'.roomStore, room.id).value.status == Occupied
  {
    var h' := AddBooking(h, guestId, guestName, room, checkIn, checkOut, bookingId).hotel;
    RoomStore.UpdateThenGet(h.roomStore, room.id, Occupied, room.id);
    forall i | 0 <= i < |h'.roomStore.rooms| && h'.roomStore.rooms[i].id == room.id
      ensures h'.roomStore.rooms[i].status == Occupied
    {
      assert h'.roomStore.rooms[i].(status := h.roomStore.rooms[i].status) == h.roomStore.rooms[i];
    }
  }

  /** A successful booking adds exactly itself, at the end, to its guest's list and nothing to anyone else's. */
  lemma AddBookingExtendsGuestList(h: Hotel, guestId: string, guestName: string, room: Room,
                                   checkIn: int, checkOut: int, bookingId: string, other: string)
    requires AddBooking(h, guestId, guestName, room, checkIn, checkOut, bookingId).booking.Some?
    ensures var r := AddBooking(h, guestId, guestName, room, checkIn, checkOut, bookingId);
            && GetGuestBookings(r.hotel, guestId) == GetGuestBookings(h, guestId) + [r.booking.value]
            && (other != guestId ==> GetGuestBookings(r.hotel, other) == GetGuestBookings(h, other))
  {
    var r := AddBooking(h, guestId, guestName, room, checkIn, checkOut, bookingId);
    Seqs.FilterAppend(h.bookings, [r.booking.value], (b: Booking) => b.guestId == guestId);
    Seqs.FilterAppend(h.bookings, [r.booking.value], (b: Booking) => b.guestId == other);
  }

  /** A guest's list keeps the ledger's order. */
  lemma GuestBookingsInLedgerOrder(h: Hotel, guestId: string)
    ensures Seqs.IsSubsequence(GetGuestBookings(h, guestId), h.bookings)
  {
    Seqs.FilterIsSubsequence(h.bookings, (b: Booking) => b.guestId == guestId);
  }
}

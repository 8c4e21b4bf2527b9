/**
 Concrete runs from the seeded hotel: a priced booking, refused bookings of
 the seed's occupied and maintenance rooms, a same-day stay, and a second
 booking of one room made possible by the admin's status override.
 */
module Scenarios {
  import opened Options
  import opened Types
  import Constants
  import RoomStore
  import BookingStore
  import HotelSystem

  /** The seed registry is where the seed list says each room is. */
  lemma BootRooms()
    ensures HotelSystem.Boot.roomStore.rooms == Constants.InitialRooms
    ensures forall i :: 0 <= i < 5 ==> RoomStore.FirstWithId(HotelSystem.Boot.roomStore.rooms, Constants.InitialRooms[i].id, i)
  {
    Constants.SeedIds();
  }

  /** Looking up a seed room in the seeded registry finds it unchanged. */
  lemma SeedLookup(i: nat)
    requires i < 5
    ensures RoomStore.GetRoomById(HotelSystem.Boot.roomStore, Constants.InitialRooms[i].id) == Some(Constants.InitialRooms[i])
  {
    BootRooms();
    var rooms := HotelSystem.Boot.roomStore.rooms;
    var id := Constants.InitialRooms[i].id;
    var found := RoomStore.GetRoomById(HotelSystem.Boot.roomStore, id);
    var k :| RoomStore.FirstWithId(rooms, id, k) && rooms[k] == found.value;
    assert RoomStore.FirstWithId(rooms, id, i);
  }

  /** From the seed, room 101 can be booked. */
  lemma Room101BookableAtBoot()
    ensures BookingStore.Bookable(HotelSystem.Boot.roomStore.rooms, Constants.Room101.id)
    ensures HotelSystem.Boot.bookings == []
  {
    BootRooms();
    assert RoomStore.FirstWithId(HotelSystem.Boot.roomStore.rooms, "room101", 0);
  }

  /** Two nights in room 101 at 80 a night cost 160 and leave the room occupied. */
  lemma TwoNightsInRoom101(checkIn: int, guestId: string, guestName: string, bookingId: string)
    ensures var r := BookingStore.AddBooking(HotelSystem.Boot, guestId, guestName, Constants.Room101,
                                              checkIn, checkIn + 2 * BookingStore.DayMs, bookingId);
            && r.booking.Some?
            && r.booking.value.totalPrice == 160
            && r.hotel.bookings == [r.booking.value]
            && RoomStore.GetRoomById(r.hotel.roomStore, "room101") == Some(Constants.Room101.(status := Occupied))
  {
    BootRooms();
    SeedLookup(0);
    var h := HotelSystem.Boot;
    assert BookingStore.Bookable(h.roomStore.rooms, "room101") by {
      assert RoomStore.FirstWithId(h.roomStore.rooms, "room101", 0);
    }
    assert BookingStore.Nights(checkIn, checkIn + 2 * BookingStore.DayMs) == 2;
    RoomStore.UpdateThenGet(h.roomStore, "room101", Occupied, "room101");
  }

  /** The seed's occupied room 103 and maintenance room 201 are refused, whatever the dates. */
  lemma SeedUnavailableRoomsRefused(checkIn: int, checkOut: int, guestId: string, guestName: string, bookingId: string)
    ensures BookingStore.AddBooking(HotelSystem.Boot, guestId, guestName, Constants.Room103, checkIn, checkOut, bookingId).booking.None?
    ensures BookingStore.AddBooking(HotelSystem.Boot, guestId, guestName, Constants.Room201, checkIn, checkOut, bookingId).booking.None?
  {
    SeedLookup(2);
    SeedLookup(3);
    BookingStore.BookableIffLookupAvailable(HotelSystem.Boot.roomStore, "room103");
    BookingStore.BookableIffLookupAvailable(HotelSystem.Boot.roomStore, "room201");
  }

  /**
   A stay from 10:00 to 14:00 on one day is one night: it is accepted, and
   both stored dates are that day's midnight.
   */
  lemma SameDayStayAccepted(day: int, guestId: string, guestName: string, bookingId: string)
    ensures var checkIn := day * BookingStore.DayMs + 10 * 3600 * 1000;
            var checkOut := day * BookingStore.DayMs + 14 * 3600 * 1000;
            var r := BookingStore.AddBooking(HotelSystem.Boot, guestId, guestName, Constants.Room101, checkIn, checkOut, bookingId);
            && r.booking.Some?
            && r.booking.value.totalPrice == 80
            && r.booking.value.checkInDate == r.booking.value.checkOutDate == day * BookingStore.DayMs
  {
    BootRooms();
    var checkIn := day * BookingStore.DayMs + 10 * 3600 * 1000;
    var checkOut := day * BookingStore.DayMs + 14 * 3600 * 1000;
    assert BookingStore.Nights(checkIn, checkOut) == 1;
    assert BookingStore.DayStart(checkIn) == day * BookingStore.DayMs;
    assert BookingStore.DayStart(checkOut) == day * BookingStore.DayMs;
  }

  /** A run of three events applies them in turn. */
  lemma RunThree(h: HotelSystem.Hotel, e1: HotelSystem.Event, e2: HotelSystem.Event, e3: HotelSystem.Event)
    ensures HotelSystem.Run(h, [e1, e2, e3]) == HotelSystem.Apply(HotelSystem.Apply(HotelSystem.Apply(h, e1), e2), e3)
  {
    var h1 := HotelSystem.Apply(h, e1);
    var h2 := HotelSystem.Apply(h1, e2);
    assert [e1, e2, e3][1..] == [e2, e3];
    assert [e2, e3][1..] == [e3];
    assert [e3][1..] == [];
    assert HotelSystem.Run(h2, [e3]) == HotelSystem.Run(HotelSystem.Apply(h2, e3), []);
    assert HotelSystem.Run(h1, [e2, e3]) == HotelSystem.Run(h2, [e3]);
  }

  /** An accepted or refused booking event leaves the state `addBooking` returns. */
  lemma ApplyBook(h: HotelSystem.Hotel, e: HotelSystem.Event)
    requires e.Book?
    ensures HotelSystem.Apply(h, e) == HotelSystem.AddOf(h, e).hotel
  {
  }

  /** Setting a room available after booking it makes it bookable again, and leaves the ledger alone. */
  lemma RebookableAfterOverride(h: HotelSystem.Hotel, roomId: string)
    requires RoomStore.GetRoomById(h.roomStore, roomId).Some?
    ensures HotelSystem.Apply(h, HotelSystem.SetStatus(roomId, Available)).bookings == h.bookings
    ensures BookingStore.Bookable(HotelSystem.Apply(h, HotelSystem.SetStatus(roomId, Available)).roomStore.rooms, roomId)
  {
    var h2 := HotelSystem.Apply(h, HotelSystem.SetStatus(roomId, Available));
    assert h2 == h.(roomStore := RoomStore.UpdateRoomStatus(h.roomStore, roomId, Available));
    RoomStore.UpdateThenGet(h.roomStore, roomId, Available, roomId);
    BookingStore.BookableIffLookupAvailable(h2.roomStore, roomId);
  }

  /** Book a room, set it available from the admin dashboard, and book it again for the same dates. */
  function BookOverrideBookEvents(room: Room, checkIn: int, checkOut: int, first: string, second: string): seq<HotelSystem.Event> {
    [
      HotelSystem.Book(first, first, room, checkIn, checkOut, "b1"),
      HotelSystem.SetStatus(room.id, Available),
      HotelSystem.Book(second, second, room, checkIn, checkOut, "b2")
    ]
  }

  /**
   From any state where a room is bookable, booking, overriding and booking
   again are all accepted: the ledger ends with two bookings of that room.
   */
  lemma BookOverrideBook(h: HotelSystem.Hotel, room: Room, checkIn: int, checkOut: int,
                         first: string, second: string)
    requires BookingStore.Bookable(h.roomStore.rooms, room.id) && checkIn < checkOut
    ensures var r := HotelSystem.Run(h, BookOverrideBookEvents(room, checkIn, checkOut, first, second));
            && |r.bookings| == |h.bookings| + 2
            && r.bookings[|h.bookings|].roomId == r.bookings[|h.bookings| + 1].roomId == room.id
            && r.bookings[|h.bookings|].checkInDate == r.bookings[|h.bookings| + 1].checkInDate
            && r.bookings[|h.bookings|].guestId == first
            && r.bookings[|h.bookings| + 1].guestId == second
  {
    var e1 := HotelSystem.Book(first, first, room, checkIn, checkOut, "b1");
    var e2 := HotelSystem.SetStatus(room.id, Available);
    var e3 := HotelSystem.Book(second, second, room, checkIn, checkOut, "b2");
    ApplyBook(h, e1);
    var h1 := HotelSystem.Apply(h, e1);
    BookingStore.AddBookingOccupies(h, first, first, room, checkIn, checkOut, "b1");
    RebookableAfterOverride(h1, room.id);
    var h2 := HotelSystem.Apply(h1, e2);
    ApplyBook(h2, e3);
    RunThree(h, e1, e2, e3);
  }

  /**
   From the seed, booking room 101, setting it available from the admin
   dashboard and booking it again for a second guest leaves two bookings of
   room 101 for the same night in the ledger.
   */
  lemma OverrideAllowsDoubleBooking(checkIn: int)
    ensures var h := HotelSystem.Run(HotelSystem.Boot,
                       BookOverrideBookEvents(Constants.Room101, checkIn, checkIn + BookingStore.DayMs, "guest1", "guest2"));
            && |h.bookings| == 2
            && h.bookings[0].roomId == h.bookings[1].roomId == "room101"
            && h.bookings[0].checkInDate == h.bookings[1].checkInDate
            && h.bookings[0].guestId != h.bookings[1].guestId
  {
    Room101BookableAtBoot();
    assert "guest1" != "guest2" by {
      assert "guest1"[5] != "guest2"[5];
    }
    BookOverrideBook(HotelSystem.Boot, Constants.Room101, checkIn, checkIn + BookingStore.DayMs, "guest1", "guest2");
  }
}

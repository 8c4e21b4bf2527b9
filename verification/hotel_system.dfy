/**
 The stores working together: every state-changing call on the room
 registry and the booking ledger as an event, the writes each event makes,
 and the invariant every write keeps from the seeded start.
 */
module HotelSystem {
  import opened Options
  import opened Types
  import Seqs
  import Constants
  import RoomStore
  import BookingStore
  import MyBookingPage

  type Hotel = BookingStore.Hotel

  /** The state-changing calls on the registry and the ledger. */
  datatype Event =
    | SetStatus(roomId: string, status: Status)
    | Toggle(roomId: string, control: Control)
    | Connect(roomId: string)
    | Disconnect(roomId: string)
    | SendCommand(roomId: string, command: string)
    | Book(guestId: string, guestName: string, room: Room, checkIn: int, checkOut: int, bookingId: string)

  /** The registry after `initializeRooms` with the seed list, and an empty ledger. */
  const Boot: Hotel := BookingStore.Hotel(RoomStore.InitializeRooms(Constants.InitialRooms), [])

  /** Registry writes lifted to the combined record. */
  function Lift(h: Hotel, steps: seq<RoomStore.RoomState>): (r: seq<Hotel>)
    ensures |r| == |steps|
    ensures forall k :: 0 <= k < |r| ==> r[k].roomStore == steps[k] && r[k].bookings == h.bookings
  {
    Seqs.Map(steps, (s: RoomStore.RoomState) => h.(roomStore := s))
  }

  function AddOf(h: Hotel, e: Event): BookingStore.AddOutcome
    requires e.Book?
  {
    BookingStore.AddBooking(h, e.guestId, e.guestName, e.room, e.checkIn, e.checkOut, e.bookingId)
  }

  /**
   The writes a booking makes, in order: the ledger append, then the room's
   status; a refused booking makes none.
   */
  function BookSteps(h: Hotel, guestId: string, guestName: string, room: Room,
                     checkIn: int, checkOut: int, bookingId: string): (steps: seq<Hotel>)
    ensures var added := BookingStore.AddBooking(h, guestId, guestName, room, checkIn, checkOut, bookingId);
            && (added.booking.None? ==> steps == [])
            && (added.booking.Some? ==>
                  && |steps| == 2
                  && steps[0].roomStore == h.roomStore
                  && steps[0].bookings == added.hotel.bookings
                  && steps[1] == added.hotel)
  {
    var added := BookingStore.AddBooking(h, guestId, guestName, room, checkIn, checkOut, bookingId);
    if added.booking.None? then [] else [h.(bookings := added.hotel.bookings), added.hotel]
  }

  /** The writes an event makes, in order. Only a booking touches the ledger. */
  function Steps(h: Hotel, e: Event): (steps: seq<Hotel>)
    ensures !e.Book? ==> forall k :: 0 <= k < |steps| ==> steps[k].bookings == h.bookings
    ensures e.Book? ==> steps == BookSteps(h, e.guestId, e.guestName, e.room, e.checkIn, e.checkOut, e.bookingId)
  {
    match e
    case SetStatus(roomId, status) => Lift(h, [RoomStore.UpdateRoomStatus(h.roomStore, roomId, status)])
    case Toggle(roomId, control) => Lift(h, [RoomStore.ToggleRoomControl(h.roomStore, roomId, control)])
    case Connect(roomId) => Lift(h, RoomStore.ConnectSteps(h.roomStore, roomId))
    case Disconnect(roomId) => Lift(h, RoomStore.DisconnectSteps(h.roomStore, roomId))
    case SendCommand(roomId, command) => Lift(h, RoomStore.SendCommandSteps(h.roomStore, roomId, command))
    case Book(guestId, guestName, room, checkIn, checkOut, bookingId) =>
      BookSteps(h, guestId, guestName, room, checkIn, checkOut, bookingId)
  }

  /** The state after all of an event's writes. */
  function Apply(h: Hotel, e: Event): Hotel {
    var steps := Steps(h, e);
    if steps == [] then h else steps[|steps| - 1]
  }

  function Run(h: Hotel, events: seq<Event>): Hotel
    decreases |events|
  {
    if events == [] then h else Run(Apply(h, events[0]), events[1..])
  }

  /** The registry holds the seed rooms' ids, in seed order: rooms are never added or removed. */
  ghost predicate SeedIdsKept(rooms: seq<Room>) {
    && |rooms| == |Constants.InitialRooms|
    && forall i :: 0 <= i < |rooms| ==> rooms[i].id == Constants.InitialRooms[i].id
  }

  /** Every room has a link entry, and every entry's flag agrees with its message. */
  ghost predicate LinksSound(s: RoomStore.RoomState) {
    && (forall id :: RoomStore.HasRoom(s.rooms, id) ==> id in s.bleStates)
    && (forall id :: id in s.bleStates ==> RoomStore.LinkCoherent(s.bleStates[id]))
  }

  /** Every booking names a room of the registry and does not end before it starts. */
  ghost predicate LedgerSound(h: Hotel) {
    forall i :: 0 <= i < |h.bookings| ==>
      && h.bookings[i].checkInDate <= h.bookings[i].checkOutDate
      && RoomStore.HasRoom(h.roomStore.rooms, h.bookings[i].roomId)
  }

  ghost predicate Inv(h: Hotel) {
    && SeedIdsKept(h.roomStore.rooms)
    && LinksSound(h.roomStore)
    && LedgerSound(h)
  }

  /** The seed ids are pairwise distinct, so the registry never has two rooms with one id. */
  lemma InvDistinctIds(h: Hotel)
    requires Inv(h)
    ensures RoomStore.DistinctIds(h.roomStore.rooms)
  {
    Constants.SeedIds();
  }

  lemma BootInv()
    ensures Inv(Boot)
  {
    var s := Boot.roomStore;
    forall id | id in s.bleStates
      ensures RoomStore.LinkCoherent(s.bleStates[id])
    {
      assert s.bleStates[id] == RoomStore.Disconnected;
    }
  }

  /** A registry write that keeps ids and link entries keeps the invariant. */
  lemma RoomWriteKeepsInv(h: Hotel, s: RoomStore.RoomState)
    requires Inv(h)
    requires |s.rooms| == |h.roomStore.rooms|
    requires forall i :: 0 <= i < |s.rooms| ==> s.rooms[i].id == h.roomStore.rooms[i].id
    requires s.bleStates == h.roomStore.bleStates
    ensures Inv(h.(roomStore := s))
  {
    var h' := h.(roomStore := s);
    forall id | RoomStore.HasRoom(s.rooms, id)
      ensures RoomStore.HasRoom(h.roomStore.rooms, id)
    {
      var i :| 0 <= i < |s.rooms| && s.rooms[i].id == id;
      assert h.roomStore.rooms[i].id == id;
    }
    forall i | 0 <= i < |h.bookings|
      ensures RoomStore.HasRoom(s.rooms, h.bookings[i].roomId)
    {
      var j :| 0 <= j < |h.roomStore.rooms| && h.roomStore.rooms[j].id == h.bookings[i].roomId;
      assert s.rooms[j].id == h.bookings[i].roomId;
    }
  }

  /**
   A link write that keeps the rooms, changes or adds only entry `roomId`
   and leaves that entry coherent keeps the invariant.
   */
  lemma LinkWriteKeepsInv(h: Hotel, s: RoomStore.RoomState, roomId: string)
    requires Inv(h)
    requires s.rooms == h.roomStore.rooms
    requires RoomStore.OnlyEntryChanged(h.roomStore.bleStates, s.bleStates, roomId)
    requires RoomStore.LinkCoherent(s.bleStates[roomId])
    ensures Inv(h.(roomStore := s))
  {
  }

  lemma SetStatusKeepsInv(h: Hotel, roomId: string, status: Status)
    requires Inv(h)
    ensures Inv(Steps(h, SetStatus(roomId, status))[0])
  {
    RoomStore.UpdateKeepsIds(h.roomStore, roomId, status);
    RoomWriteKeepsInv(h, RoomStore.UpdateRoomStatus(h.roomStore, roomId, status));
  }

  lemma ToggleKeepsInv(h: Hotel, roomId: string, control: Control)
    requires Inv(h)
    ensures Inv(Steps(h, Toggle(roomId, control))[0])
  {
    var s := h.roomStore;
    var r := RoomStore.ToggleRoomControl(s, roomId, control);
    forall i | 0 <= i < |s.rooms|
      ensures r.rooms[i].id == s.rooms[i].id
    {
      assert r.rooms[i].(currentControls := s.rooms[i].currentControls).id == r.rooms[i].id;
    }
    RoomWriteKeepsInv(h, r);
  }

  lemma ConnectKeepsInv(h: Hotel, roomId: string)
    requires Inv(h)
    ensures forall k :: 0 <= k < |Steps(h, Connect(roomId))| ==> Inv(Steps(h, Connect(roomId))[k])
  {
    var steps := RoomStore.ConnectSteps(h.roomStore, roomId);
    RoomStore.LinkWritesCoherent(h.roomStore, roomId, "");
    LinkWriteKeepsInv(h, steps[0], roomId);
    LinkWriteKeepsInv(h, steps[1], roomId);
  }

  lemma DisconnectKeepsInv(h: Hotel, roomId: string)
    requires Inv(h)
    ensures Inv(Steps(h, Disconnect(roomId))[0])
  {
    RoomStore.LinkWritesCoherent(h.roomStore, roomId, "");
    LinkWriteKeepsInv(h, RoomStore.DisconnectSteps(h.roomStore, roomId)[0], roomId);
  }

  lemma SendCommandKeepsInv(h: Hotel, roomId: string, command: string)
    requires Inv(h)
    ensures forall k :: 0 <= k < |Steps(h, SendCommand(roomId, command))| ==> Inv(Steps(h, SendCommand(roomId, command))[k])
  {
    var steps := RoomStore.SendCommandSteps(h.roomStore, roomId, command);
    RoomStore.LinkWritesCoherent(h.roomStore, roomId, command);
    if steps != [] {
      LinkWriteKeepsInv(h, steps[0], roomId);
      LinkWriteKeepsInv(h, steps[1], roomId);
    }
  }

  /** Appending a booking of an existing room that ends no earlier than it starts keeps the invariant. */
  lemma AppendKeepsInv(h: Hotel, b: Booking)
    requires Inv(h)
    requires b.checkInDate <= b.checkOutDate && RoomStore.HasRoom(h.roomStore.rooms, b.roomId)
    ensures Inv(h.(bookings := h.bookings + [b]))
  {
    var bookings := h.bookings + [b];
    forall j | 0 <= j < |bookings|
      ensures bookings[j].checkInDate <= bookings[j].checkOutDate
      ensures RoomStore.HasRoom(h.roomStore.rooms, bookings[j].roomId)
    {
      if j < |h.bookings| {
        assert bookings[j] == h.bookings[j];
      }
    }
  }

  /** Both writes of an accepted booking keep the invariant. */
  lemma BookKeepsInv(h: Hotel, guestId: string, guestName: string, room: Room,
                     checkIn: int, checkOut: int, bookingId: string)
    requires Inv(h)
    requires BookingStore.AddBooking(h, guestId, guestName, room, checkIn, checkOut, bookingId).booking.Some?
    ensures var added := BookingStore.AddBooking(h, guestId, guestName, room, checkIn, checkOut, bookingId);
            Inv(h.(bookings := added.hotel.bookings)) && Inv(added.hotel)
  {
    var added := BookingStore.AddBooking(h, guestId, guestName, room, checkIn, checkOut, bookingId);
    var s := h.roomStore;
    var b := added.booking.value;
    var i :| RoomStore.FirstWithId(s.rooms, room.id, i) && s.rooms[i].status == Available;
    assert RoomStore.HasRoom(s.rooms, b.roomId) by {
      assert s.rooms[i].id == b.roomId;
    }
    AppendKeepsInv(h, b);
    RoomStore.UpdateKeepsIds(s, room.id, Occupied);
    RoomWriteKeepsInv(h.(bookings := added.hotel.bookings), added.hotel.roomStore);
  }

  lemma BookStepsKeepInv(h: Hotel, guestId: string, guestName: string, room: Room,
                         checkIn: int, checkOut: int, bookingId: string)
    requires Inv(h)
    ensures var steps := BookSteps(h, guestId, guestName, room, checkIn, checkOut, bookingId);
            forall k :: 0 <= k < |steps| ==> Inv(steps[k])
  {
    var added := BookingStore.AddBooking(h, guestId, guestName, room, checkIn, checkOut, bookingId);
    if added.booking.Some? {
      BookKeepsInv(h, guestId, guestName, room, checkIn, checkOut, bookingId);
      assert BookSteps(h, guestId, guestName, room, checkIn, checkOut, bookingId)[0] == h.(bookings := added.hotel.bookings);
    }
  }

  /** Every write of every event keeps the invariant, the write in the middle of a booking included. */
  lemma StepsKeepInv(h: Hotel, e: Event)
    requires Inv(h)
    ensures forall k :: 0 <= k < |Steps(h, e)| ==> Inv(Steps(h, e)[k])
  {
    match e
    case SetStatus(roomId, status) => SetStatusKeepsInv(h, roomId, status);
    case Toggle(roomId, control) => ToggleKeepsInv(h, roomId, control);
    case Connect(roomId) => ConnectKeepsInv(h, roomId);
    case Disconnect(roomId) => DisconnectKeepsInv(h, roomId);
    case SendCommand(roomId, command) => SendCommandKeepsInv(h, roomId, command);
    case Book(guestId, guestName, room, checkIn, checkOut, bookingId) =>
      BookStepsKeepInv(h, guestId, guestName, room, checkIn, checkOut, bookingId);
  }

  lemma ApplyKeepsInv(h: Hotel, e: Event)
    requires Inv(h)
    ensures Inv(Apply(h, e))
  {
    StepsKeepInv(h, e);
  }

  /** Every sequence of events keeps the invariant. */
  lemma {:induction false} RunKeepsInv(h: Hotel, events: seq<Event>)
    requires Inv(h)
    ensures Inv(Run(h, events))
    decreases |events|
  {
    if events != [] {
      ApplyKeepsInv(h, events[0]);
      RunKeepsInv(Apply(h, events[0]), events[1..]);
    }
  }

  /** Every state reached from the seeded start satisfies the invariant. */
  lemma ReachableInv(events: seq<Event>)
    ensures Inv(Run(Boot, events))
    ensures RoomStore.DistinctIds(Run(Boot, events).roomStore.rooms)
  {
    BootInv();
    RunKeepsInv(Boot, events);
    InvDistinctIds(Run(Boot, events));
  }

  /**
   In every reachable state, the guest page puts each of the guest's
   bookings in exactly one of its three sections.
   */
  lemma ReachableSectionsPartition(events: seq<Event>, user: User, now: int)
    ensures var h := Run(Boot, events);
            var s := MyBookingPage.MyBookings(h, Some(user), now).value;
            |s.current| + |s.upcoming| + |s.past| == |BookingStore.GetGuestBookings(h, user.id)|
  {
    ReachableInv(events);
    var h := Run(Boot, events);
    var mine := BookingStore.GetGuestBookings(h, user.id);
    forall i | 0 <= i < |mine|
      ensures mine[i].checkInDate <= mine[i].checkOutDate
    {
      assert mine[i] in h.bookings;
      var j :| 0 <= j < |h.bookings| && h.bookings[j] == mine[i];
    }
    MyBookingPage.ClassifyPartitions(mine, now);
  }

  /**
   After the first of a booking's two writes (both synchronous, so no other
   action sees this state) the ledger already holds the booking while the
   registry still shows the room available.
   */
  lemma BookingVisibleBeforeRoomOccupied(h: Hotel, guestId: string, guestName: string, room: Room,
                                         checkIn: int, checkOut: int, bookingId: string)
    requires BookingStore.AddBooking(h, guestId, guestName, room, checkIn, checkOut, bookingId).booking.Some?
    ensures var e := Book(guestId, guestName, room, checkIn, checkOut, bookingId);
            var mid := Steps(h, e)[0];
            && mid.bookings[|mid.bookings| - 1].roomId == room.id
            && BookingStore.Bookable(mid.roomStore.rooms, room.id)
  {
  }
}

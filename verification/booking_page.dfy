/**
 The decisions the booking page makes: which rooms it lists, which room
 types it offers, when the date form is valid, the total it displays and
 when booking requires a session.
 */
module BookingPage {
  import opened Options
  import opened Types
  import Seqs
  import RoomStore
  import BookingStore

  /** The select value standing for "any room type". */
  const AnyRoomType: string := "_any_room_type_"

  /** The type filter lets `roomType` through: it is unset, empty, "any", or that very type. */
  predicate AdmitsType(filter: Option<string>, roomType: string) {
    filter.None? || filter.value == "" || filter.value == AnyRoomType || roomType == filter.value
  }

  /** The rooms listed as bookable: available ones of an admitted type, in registry order. */
  function AvailableRooms(rooms: seq<Room>, filter: Option<string>): (r: seq<Room>)
    ensures |r| <= |rooms|
    ensures forall i :: 0 <= i < |r| ==> r[i].status == Available && AdmitsType(filter, r[i].roomType)
    ensures forall room :: room in rooms && room.status == Available && AdmitsType(filter, room.roomType) ==> room in r
    ensures forall room :: room in r ==> room in rooms
  {
    Seqs.Filter(rooms, (room: Room) => room.status == Available && AdmitsType(filter, room.roomType))
  }

  /**
   The list is recomputed only while both dates are set; otherwise the page
   keeps showing the previous list.
   */
  function RefreshAvailable(previous: seq<Room>, rooms: seq<Room>, checkIn: Option<int>, checkOut: Option<int>,
                            filter: Option<string>): (r: seq<Room>)
    ensures checkIn.None? || checkOut.None? ==> r == previous
    ensures checkIn.Some? && checkOut.Some? ==> r == AvailableRooms(rooms, filter)
  {
    if checkIn.Some? && checkOut.Some? then AvailableRooms(rooms, filter) else previous
  }

  /** The listing keeps the registry's order. */
  lemma AvailableRoomsInOrder(rooms: seq<Room>, filter: Option<string>)
    ensures Seqs.IsSubsequence(AvailableRooms(rooms, filter), rooms)
  {
    Seqs.FilterIsSubsequence(rooms, (room: Room) => room.status == Available && AdmitsType(filter, room.roomType));
  }

  /** An unset, empty or "any" filter lists the same rooms: every available one. */
  lemma OpenFiltersAgree(rooms: seq<Room>)
    ensures AvailableRooms(rooms, Some("")) == AvailableRooms(rooms, None)
    ensures AvailableRooms(rooms, Some(AnyRoomType)) == AvailableRooms(rooms, None)
    ensures forall room :: room in AvailableRooms(rooms, None) <==> room in rooms && room.status == Available
  {
    FilterSamePredicate(rooms, Some(""), None);
    FilterSamePredicate(rooms, Some(AnyRoomType), None);
  }

  /** Two filters admitting the same types list the same rooms. */
  lemma {:induction false} FilterSamePredicate(rooms: seq<Room>, f: Option<string>, g: Option<string>)
    requires forall t :: AdmitsType(f, t) == AdmitsType(g, t)
    ensures AvailableRooms(rooms, f) == AvailableRooms(rooms, g)
    decreases |rooms|
  {
    if rooms != [] {
      FilterSamePredicate(rooms[1..], f, g);
    }
  }

  /**
   When ids are distinct, every listed room passes the ledger's availability
   check, so the page never offers a room the ledger would refuse as taken.
   */
  lemma ListedRoomsAreBookable(s: RoomStore.RoomState, filter: Option<string>, room: Room)
    requires RoomStore.DistinctIds(s.rooms)
    requires room in AvailableRooms(s.rooms, filter)
    ensures BookingStore.Bookable(s.rooms, room.id)
  {
    var i :| 0 <= i < |s.rooms| && s.rooms[i] == room;
    assert RoomStore.FirstWithId(s.rooms, room.id, i);
  }

  /** `Array.from(new Set(rooms.map(r => r.type)))`: each type once, in order of first appearance. */
  method RoomTypes(rooms: seq<Room>) returns (types: seq<string>)
    ensures types == Seqs.Distinct(Seqs.Map(rooms, (room: Room) => room.roomType))
    ensures Seqs.NoDuplicates(types)
    ensures forall t :: t in types <==> exists i :: 0 <= i < |rooms| && rooms[i].roomType == t
  {
    var names := Seqs.Map(rooms, (room: Room) => room.roomType);
    var seen: set<string> := {};
    types := [];
    var i := 0;
    while i < |names|
      invariant 0 <= i <= |names|
      invariant types == Seqs.Distinct(names[..i])
      invariant forall t :: t in seen <==> t in names[..i]
    {
      assert names[..i + 1][..i] == names[..i];
      if names[i] !in seen {
        types := types + [names[i]];
        seen := seen + {names[i]};
      }
      i := i + 1;
    }
    assert names[..i] == names;
    forall t | t in types
      ensures exists i :: 0 <= i < |rooms| && rooms[i].roomType == t
    {
      var k :| 0 <= k < |names| && names[k] == t;
      assert rooms[k].roomType == t;
    }
    forall t | exists i :: 0 <= i < |rooms| && rooms[i].roomType == t
      ensures t in types
    {
      var k :| 0 <= k < |rooms| && rooms[k].roomType == t;
      assert names[k] == t;
    }
  }

  /** The form's date rule: check-out strictly after check-in. */
  predicate DatesValid(checkIn: int, checkOut: int) {
    checkOut > checkIn
  }

  /** The form accepts exactly the dates that give the ledger a positive night count. */
  lemma DatesValidIffPositiveNights(checkIn: int, checkOut: int)
    ensures DatesValid(checkIn, checkOut) <==> BookingStore.Nights(checkIn, checkOut) > 0
  {
  }

  /** The total shown in the confirmation dialog. */
  function DisplayedTotal(room: Room, checkIn: int, checkOut: int): (total: int)
    ensures room.pricePerNight > 0 ==> (total > 0 <==> checkIn < checkOut)
  {
    BookingStore.Nights(checkIn, checkOut) * room.pricePerNight
  }

  /** Choosing a room to book opens the dialog only with a session; otherwise the choice is unchanged. */
  function HandleBookRoom(selected: Option<Room>, user: Option<User>, room: Room): (r: Option<Room>)
    ensures user.None? ==> r == selected
    ensures user.Some? ==> r == Some(room)
  {
    if user.None? then selected else Some(room)
  }

  /** The page's state after confirming: the hotel, the dialog's room and the booking made, if any. */
  datatype ConfirmOutcome = ConfirmOutcome(hotel: BookingStore.Hotel, selected: Option<Room>, booking: Option<Booking>)

  /**
   Confirms the dialog: does nothing without a selected room and a session,
   otherwise books the selected room for the session's user with the form's
   current dates (read directly, not through the validated submit) and closes
   the dialog on success.
   */
  function ConfirmBooking(h: BookingStore.Hotel, selected: Option<Room>, user: Option<User>,
                          checkIn: int, checkOut: int, bookingId: string): (r: ConfirmOutcome)
    ensures selected.None? || user.None? ==> r == ConfirmOutcome(h, selected, None)
    ensures r.booking.Some? <==>
              selected.Some? && user.Some? && BookingStore.Bookable(h.roomStore.rooms, selected.value.id) && checkIn < checkOut
    ensures r.booking.None? ==> r.hotel == h && r.selected == selected
    ensures r.booking.Some? ==>
              && r.booking.value.guestId == user.value.id
              && r.booking.value.guestName == user.value.name
              && r.booking.value.roomId == selected.value.id
              && r.booking.value.totalPrice == DisplayedTotal(selected.value, checkIn, checkOut)
              && r.selected.None?
    ensures selected.Some? && user.Some? ==>
              var added := BookingStore.AddBooking(h, user.value.id, user.value.name, selected.value,
                                                   checkIn, checkOut, bookingId);
              r.hotel == added.hotel && r.booking == added.booking
  {
    if selected.None? || user.None? then ConfirmOutcome(h, selected, None)
    else
      var added := BookingStore.AddBooking(h, user.value.id, user.value.name, selected.value, checkIn, checkOut, bookingId);
      if added.booking.Some? then
        BookingStore.AddBookingPrice(h, user.value.id, user.value.name, selected.value, checkIn, checkOut, bookingId);
        ConfirmOutcome(added.hotel, None, added.booking)
      else
        ConfirmOutcome(added.hotel, selected, None)
  }

  /** Dates the form would reject are refused by the ledger too, even though confirming skips the form check. */
  lemma InvalidDatesNeverBook(h: BookingStore.Hotel, selected: Option<Room>, user: Option<User>,
                              checkIn: int, checkOut: int, bookingId: string)
    requires !DatesValid(checkIn, checkOut)
    ensures ConfirmBooking(h, selected, user, checkIn, checkOut, bookingId).booking.None?
    ensures ConfirmBooking(h, selected, user, checkIn, checkOut, bookingId).hotel == h
  {
  }
}

/**
 The guest's booking page: the signed-in guest's bookings, split into the
 current stay, upcoming and past bookings against the moment `now`.
 */
module MyBookingPage {
  import opened Options
  import opened Types
  import Seqs
  import BookingStore

  /** The stay covers `now`, both ends included. */
  predicate IsCurrent(b: Booking, now: int) {
    b.checkOutDate >= now && b.checkInDate <= now
  }

  /** The stay has not begun. */
  predicate IsUpcoming(b: Booking, now: int) {
    b.checkInDate > now
  }

  /** The stay is over. */
  predicate IsPast(b: Booking, now: int) {
    b.checkOutDate < now
  }

  /** The three sections the page lists. */
  datatype Sections = Sections(current: seq<Booking>, upcoming: seq<Booking>, past: seq<Booking>)

  /** Splits a list of bookings into the three sections, each in list order. */
  function Classify(bookings: seq<Booking>, now: int): (r: Sections)
    ensures forall b :: b in r.current <==> b in bookings && b.checkInDate <= now <= b.checkOutDate
    ensures forall b :: b in r.upcoming <==> b in bookings && now < b.checkInDate
    ensures forall b :: b in r.past <==> b in bookings && b.checkOutDate < now
  {
    Sections(Seqs.Filter(bookings, (b: Booking) => IsCurrent(b, now)),
             Seqs.Filter(bookings, (b: Booking) => IsUpcoming(b, now)),
             Seqs.Filter(bookings, (b: Booking) => IsPast(b, now)))
  }

  /**
   The page's lists: nothing while no one is signed in (the guard takes over),
   otherwise the signed-in user's bookings from the ledger, classified.
   */
  function MyBookings(h: BookingStore.Hotel, user: Option<User>, now: int): (r: Option<Sections>)
    ensures r.None? <==> user.None?
    ensures r.Some? ==> forall b :: b in r.value.current || b in r.value.upcoming || b in r.value.past ==>
                                      b in h.bookings && b.guestId == user.value.id
    ensures r.Some? ==> forall b :: b in h.bookings && b.guestId == user.value.id ==>
                                      && (IsCurrent(b, now) <==> b in r.value.current)
                                      && (IsUpcoming(b, now) <==> b in r.value.upcoming)
                                      && (IsPast(b, now) <==> b in r.value.past)
  {
    match user
    case None => None
    case Some(u) => Some(Classify(BookingStore.GetGuestBookings(h, u.id), now))
  }

  /** When every stay ends no earlier than it starts, each booking is in exactly one section. */
  lemma ClassifyPartitions(bookings: seq<Booking>, now: int)
    requires forall i :: 0 <= i < |bookings| ==> bookings[i].checkInDate <= bookings[i].checkOutDate
    ensures var r := Classify(bookings, now);
            |r.current| + |r.upcoming| + |r.past| == |bookings|
    ensures forall b :: b in bookings ==>
              Seqs.ExactlyOne(IsCurrent(b, now), IsUpcoming(b, now), IsPast(b, now))
  {
    Seqs.FilterPartition(bookings, (b: Booking) => IsCurrent(b, now), (b: Booking) => IsUpcoming(b, now),
                         (b: Booking) => IsPast(b, now));
  }

  /** An inverted stay (out before in) that has begun and ended falls in two sections at once. */
  lemma InvertedStayListedTwice(b: Booking, now: int)
    requires b.checkOutDate < now < b.checkInDate
    ensures !IsCurrent(b, now) && IsUpcoming(b, now) && IsPast(b, now)
  {
  }

  /** Each section keeps the order of the list it came from. */
  lemma SectionsInOrder(bookings: seq<Booking>, now: int)
    ensures Seqs.IsSubsequence(Classify(bookings, now).current, bookings)
    ensures Seqs.IsSubsequence(Classify(bookings, now).upcoming, bookings)
    ensures Seqs.IsSubsequence(Classify(bookings, now).past, bookings)
  {
    Seqs.FilterIsSubsequence(bookings, (b: Booking) => IsCurrent(b, now));
    Seqs.FilterIsSubsequence(bookings, (b: Booking) => IsUpcoming(b, now));
    Seqs.FilterIsSubsequence(bookings, (b: Booking) => IsPast(b, now));
  }

  /** The room-control links: one per current booking, to that booking's room. */
  function AccessLinks(s: Sections): (r: seq<string>)
    ensures |r| == |s.current|
    ensures forall i :: 0 <= i < |r| ==> r[i] == s.current[i].roomId
  {
    Seqs.Map(s.current, (b: Booking) => b.roomId)
  }

  /** A booking's room gets a link only when some current booking of the guest is for it. */
  lemma LinksOnlyForCurrentStays(h: BookingStore.Hotel, user: User, now: int, roomId: string)
    requires roomId in AccessLinks(MyBookings(h, Some(user), now).value)
    ensures exists b :: b in h.bookings && b.guestId == user.id && b.roomId == roomId && IsCurrent(b, now)
  {
    var s := MyBookings(h, Some(user), now).value;
    var i :| 0 <= i < |AccessLinks(s)| && AccessLinks(s)[i] == roomId;
    assert s.current[i] in s.current;
  }

  /** The "no bookings yet" card shows exactly when the guest has no booking in the ledger. */
  function ShowsNoBookingsCard(h: BookingStore.Hotel, user: User): (r: bool)
    ensures r <==> forall b :: b in h.bookings ==> b.guestId != user.id
  {
    var mine := BookingStore.GetGuestBookings(h, user.id);
    assert |mine| > 0 ==> mine[0] in mine;
    |mine| == 0
  }
}

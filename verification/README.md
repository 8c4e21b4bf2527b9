# Hotel booking and room control: a Dafny model

This project models the state logic of a prototype hotel web application.
Guests browse available rooms, book them and control a room's light,
air conditioning and main power through a simulated device link. An
administrator sees occupancy statistics and overrides room status.

The model covers the following parts of the application:

- **Room registry and device link** (`RoomStore`). This is the room list and
  the per-room link state. It covers lookups, status updates, control
  toggles, and the connect / disconnect / send-command link machine. Each
  asynchronous link action is modelled as the sequence of store writes it
  makes, with the delays dropped.
- **Booking ledger** (`BookingStore`). A booking checks the registry,
  computes the night count and total, appends the booking and marks the
  room occupied. This is the one write that spans two stores, so rooms and
  bookings live together in one `Hotel` record.
- **Identity directory** (`AuthStore`). It holds the seed accounts, login
  by email and role (the password is never examined), registration of guest
  accounts, and logout.
- **Seed data** (`Constants`). These are the five seed rooms.
- **Decision logic in the pages**:
  - the access guard (`AuthGuard`);
  - the booking page's room filter, room-type list, date rule, displayed
    total and login gating (`BookingPage`);
  - the admin dashboard's status tally, chart, power switch and override
    buttons (`AdminPage`);
  - the guest page's current / upcoming / past split (`MyBookingPage`).
- **The stores together** (`HotelSystem`). Every state-changing call on the
  room registry and the booking ledger after the one-time initialisation is
  an event, and each event produces a sequence of writes. Sign-in,
  registration and sign-out are modelled separately in `AuthStore`. The model proves
  that every write, including the one in the middle of a booking, keeps an
  invariant that holds from the seeded start:
  - the rooms keep the seed ids;
  - every room has a coherent link entry;
  - every booking names an existing room and ends no earlier than it
    starts.
- **Concrete runs from the seed** (`Scenarios`).

Generic sequence helpers (map, find, filter, dedup, subsequence) are in
`Seqs`, and `Option` is in `Options`.

Modelling decisions:

- **Timestamps.** They are integer milliseconds.
  - The night count is the ceiling of the difference divided by
    86 400 000, as `Nights`.
  - A stored booking date is the date part of the ISO string, which
    `new Date` reads back as UTC midnight. The model writes this as
    `DayStart`, the timestamp rounded down to a whole day.
  - The night count is taken from the raw timestamps but the stored dates
    are truncated. As a result, a stay from 10:00 to 14:00 on one day is
    accepted as one night with equal stored dates
    (`Scenarios.SameDayStayAccepted`). The ledger invariant is therefore
    check-in ≤ check-out, not <.
- **Ids and tokens.** They are built from the clock in the source. Here they
  are parameters, and no uniqueness is claimed.
- **A booking and its room.** One would expect a booking never to exist
  without its room occupied. The code does not guarantee this:
  - The admin's "Set Available" override applies to an occupied room too.
    The room is then available while its booking stays in the ledger, and a
    second guest can book the same room for the same nights
    (`Scenarios.OverrideAllowsDoubleBooking`).
  - A booking makes two store writes, the ledger append and then the status
    update (`HotelSystem.BookSteps`). Both run synchronously after the
    booking's only delay, so no other action can observe the state between
    them. The model still lists that state as a write of its own and proves
    the invariant holds there too
    (`HotelSystem.BookingVisibleBeforeRoomOccupied` describes it).
- **Link entries.** One would expect exactly one link entry per known room. The code's connect and disconnect write an entry for any
  id, known or not, and the model does the same (`OnlyEntryChanged` allows
  the key set to grow by that id).

## Model

| member | source | states |
|---|---|---|
| Constants.SeedIds | src/lib/constants.ts:3-49 | The seed list has five rooms, room101, room102, room103, room201 and room202, with pairwise distinct ids |
| Constants.SeedStatuses | src/lib/constants.ts:8-44 | Rooms 101, 102 and 202 start available, 103 occupied and 201 in maintenance |
| Constants.SeedPricesPositive | src/lib/constants.ts:10-46 | Every seed nightly price is strictly positive |
| Constants.SeedControls | src/lib/constants.ts:11-47 | Room 201 has all three controls off; every other seed room has power on |
| RoomStore.InitializeRooms | src/stores/roomStore.ts:25-32 | The room list becomes the given list, and there is exactly one link entry per room id, each disconnected |
| RoomStore.GetRoomById | src/stores/roomStore.ts:33 | Nothing exactly when no room has the id; otherwise the first room carrying that id |
| RoomStore.UpdateRoomStatus | src/stores/roomStore.ts:34-40 | Only the status of rooms with that id changes. Length, order, links and every other field stay the same |
| RoomStore.UpdateThenGet | src/stores/roomStore.ts:33-40 | A lookup after an update finds the same room with the new status; lookups of other ids are unaffected |
| RoomStore.LookupAfterUpdate | src/stores/roomStore.ts:33-40 | After an update, a lookup of any id finds the same room as before, with the new status exactly when it is the updated id |
| RoomStore.UpdateUnknownIsNoop | src/stores/roomStore.ts:34-40 | Updating an id no room has changes nothing |
| RoomStore.ToggleRoomControl | src/stores/roomStore.ts:41-54 | Exactly the named control of the matching rooms is negated. The other two controls, all other fields and the links are unchanged |
| RoomStore.ToggleTwiceRestores | src/stores/roomStore.ts:41-54 | Toggling the same control twice restores the original state |
| RoomStore.ToggleKeepsStatus | src/stores/roomStore.ts:41-54 | A toggle never changes any room's status |
| RoomStore.ToggleIgnoresLink | src/stores/roomStore.ts:55-63 | The rooms after a toggle do not depend on the link state; the connected check only logs |
| RoomStore.ConnectSteps | src/stores/roomStore.ts:65-79 | Two writes: "Connecting..." (not connected), then "Connected" (connected). Rooms and every other id's entry are untouched, even for an unknown id |
| RoomStore.DisconnectSteps | src/stores/roomStore.ts:80-88 | One write that leaves the entry disconnected. Rooms and other entries are untouched |
| RoomStore.SendCommandSteps | src/stores/roomStore.ts:89-108 | No write at all when the entry is absent or not connected. Otherwise two writes, "Sending: cmd..." then "Command 'cmd' sent.", both still connected, with rooms, key set and other entries unchanged |
| RoomStore.LinkWritesCoherent | src/stores/roomStore.ts:65-108 | Every link write leaves the connected flag consistent with its message |
| BookingStore.Nights | src/stores/bookingStore.ts:34 | The night count is the ceiling of the stay length in days. It is positive exactly when check-out is after check-in |
| BookingStore.DayStart | src/stores/bookingStore.ts:47-48 | A stored date is the midnight that starts the day of the timestamp |
| BookingStore.AddBooking | src/stores/bookingStore.ts:23-55 | Succeeds iff the registry's first room with that id is available and check-out is after check-in. A refusal changes nothing. On success: the booking copies the inputs; the total is the price of the room passed in, summed over the nights; the booking is appended at the end; that room becomes occupied |
| BookingStore.AddBookingPrice | src/stores/bookingStore.ts:34-39 | An accepted booking's total is the night count times the nightly price of the room passed in, not the registry's copy |
| BookingStore.BookableIffLookupAvailable | src/stores/bookingStore.ts:27-29 | The availability check passes iff the lookup finds the room and it is available |
| BookingStore.AddBookingOccupies | src/stores/bookingStore.ts:53 | After a successful booking every room with the booked id is occupied, and the lookup reports it occupied |
| BookingStore.NoSecondBooking | src/stores/bookingStore.ts:27-53 | After a successful booking, a second booking of the same room id is refused |
| BookingStore.GetGuestBookings | src/stores/bookingStore.ts:56-58 | Exactly the ledger's bookings with that guest id |
| BookingStore.GuestBookingsInLedgerOrder | src/stores/bookingStore.ts:56-58 | A guest's list is a subsequence of the ledger, in ledger order |
| BookingStore.AddBookingExtendsGuestList | src/stores/bookingStore.ts:52-58 | A booking adds exactly itself, at the end, to its guest's list and leaves every other guest's list unchanged |
| BookingStore.GetBookingById | src/stores/bookingStore.ts:59-61 | Nothing iff no booking has the id; otherwise the first booking with that id |
| AuthStore.Login | src/stores/authStore.ts:30-42 | Succeeds iff some account has that email and that role, and the session becomes the first such account. A failure leaves everything unchanged |
| AuthStore.LoginIgnoresPassword | src/stores/authStore.ts:30-42 | The password never affects the result |
| AuthStore.Logout | src/stores/authStore.ts:43-45 | The session user and token are cleared and the accounts kept |
| AuthStore.Register | src/stores/authStore.ts:46-57 | Fails, changing nothing, iff any account of either role has the email. Otherwise it appends exactly one guest account with that name and email and makes it the session user |
| AuthStore.RegisterThenLogin | src/stores/authStore.ts:33-55 | After a successful registration, a guest login with that email succeeds with any password and finds the new account |
| AuthStore.DuplicateRegistrationRefused | src/stores/authStore.ts:18-51 | Registering the seed guest's email again is refused |
| AuthStore.RunKeepsInv | src/stores/authStore.ts:18-57 | Across any sequence of calls, the seed accounts stay first and no two accounts share an email |
| AuthStore.AdminNeverLogsInAsGuest | src/stores/authStore.ts:18-33 | After any sequence of calls, the admin email cannot log in with the guest role |
| AuthGuard.Guard | src/components/auth/AuthGuard.tsx:17-43 | Children render iff hydrated, signed in and role admitted. Before hydration: no redirect and children hidden. With no user: redirect to the login page. With a role not admitted: redirect home. At most one redirect |
| AuthGuard.AnySignedInUserPassesOpenGuard | src/components/auth/AuthGuard.tsx:26-43 | With no role list, any signed-in user sees the children |
| AuthGuard.MissingUserTakesPrecedence | src/components/auth/AuthGuard.tsx:21-24 | A missing user sends to the login page whatever the role list |
| AuthGuard.EmptyRoleListAdmitsNobody | src/components/auth/AuthGuard.tsx:26-32 | An empty role list sends every signed-in user home |
| BookingPage.AvailableRooms | src/app/page.tsx:71-74 | Exactly the available rooms whose type the filter admits |
| BookingPage.RefreshAvailable | src/app/page.tsx:69-77 | The list is recomputed only when both dates are set; otherwise the previous list stays |
| BookingPage.AvailableRoomsInOrder | src/app/page.tsx:71 | The listing is a subsequence of the registry, in registry order |
| BookingPage.OpenFiltersAgree | src/app/page.tsx:73 | An unset, empty or "any" filter lists exactly the available rooms |
| BookingPage.ListedRoomsAreBookable | src/app/page.tsx:71-74 | With distinct ids, every listed room passes the ledger's availability check |
| BookingPage.RoomTypes | src/app/page.tsx:145 | Each room type once, in order of first appearance, and nothing else |
| BookingPage.DatesValidIffPositiveNights | src/app/page.tsx:33-36 | The form's date rule accepts exactly the dates that give a positive night count |
| BookingPage.DisplayedTotal | src/app/page.tsx:291-293 | With a positive price, the displayed total is positive iff check-out is after check-in |
| BookingPage.HandleBookRoom | src/app/page.tsx:118-125 | Without a session the selection is unchanged; with one the chosen room is selected |
| BookingPage.ConfirmBooking | src/app/page.tsx:127-143 | Does nothing without a selected room and a user. Otherwise the hotel and booking are exactly those of `addBooking` with the session's user, the selected room and the form's dates; a booking exists iff the ledger accepts; its total equals the displayed total; success closes the dialog |
| BookingPage.InvalidDatesNeverBook | src/app/page.tsx:127-133 | Dates the form would reject never produce a booking, even though confirming reads the dates directly |
| AdminPage.RoomStatusCounts | src/app/admin/page.tsx:36-39 | The tally has exactly the statuses that occur, each mapped to its number of rooms |
| AdminPage.StatusCountsCoverAllRooms | src/app/admin/page.tsx:41-45 | The available, occupied and maintenance counts sum to the number of rooms |
| AdminPage.BuildDashboard | src/app/admin/page.tsx:41-45 | Total card = room count. The occupied and available cards and the three chart rows show the counts, absent statuses as zero, and the chart rows sum to the room count |
| AdminPage.TogglePower | src/app/admin/page.tsx:47-48 | Only the power of the rooms with that id flips, whatever state the switch showed |
| AdminPage.ButtonsOffered | src/app/admin/page.tsx:177-186 | "Set Available" is offered iff the room is not available, and "Set Maintenance" iff it is not in maintenance. Every row offers one; exactly occupied rows offer both |
| AdminPage.OverrideAlwaysApplies | src/app/admin/page.tsx:56-57 | Any override of an existing room takes effect, with no transition check |
| MyBookingPage.Classify | src/app/my-booking/page.tsx:36-38 | Current iff check-in ≤ now ≤ check-out; upcoming iff check-in > now; past iff check-out < now |
| MyBookingPage.MyBookings | src/app/my-booking/page.tsx:22-33 | Nothing without a user. Otherwise it lists only the signed-in user's bookings from the ledger, and every one of them: each booking of the user is in the current, upcoming or past section exactly when it is current, upcoming or past |
| MyBookingPage.ClassifyPartitions | src/app/my-booking/page.tsx:36-38 | When no stay ends before it starts, each booking is in exactly one section and the section sizes add up |
| MyBookingPage.InvertedStayListedTwice | src/app/my-booking/page.tsx:36-38 | A stay ending before it starts can be both upcoming and past, so the partition needs in ≤ out |
| MyBookingPage.SectionsInOrder | src/app/my-booking/page.tsx:36-38 | Each section keeps the order of the guest's list |
| MyBookingPage.AccessLinks | src/app/my-booking/page.tsx:63-71 | One room-control link per current booking, to that booking's room |
| MyBookingPage.LinksOnlyForCurrentStays | src/app/my-booking/page.tsx:63-71 | A room gets a link only if a current booking of the guest is for it |
| MyBookingPage.ShowsNoBookingsCard | src/app/my-booking/page.tsx:80-89 | The "no bookings yet" card shows iff the guest has no booking in the ledger |
| HotelSystem.BookSteps | src/stores/bookingStore.ts:52-53 | A booking makes two writes, the ledger append with the rooms unchanged and then the room status, and a refused one makes none |
| HotelSystem.Steps | src/stores/roomStore.ts:34-108 | No event other than a booking touches the ledger; a booking's writes are those of `BookSteps` |
| HotelSystem.BootInv | src/stores/roomStore.ts:25-32 | The seeded start satisfies the invariant |
| HotelSystem.AppendKeepsInv | src/stores/bookingStore.ts:52 | Appending a booking of an existing room that ends no earlier than it starts keeps the invariant |
| HotelSystem.BookKeepsInv | src/stores/bookingStore.ts:27-53 | The state after the ledger append and the state after the status write of an accepted booking both satisfy the invariant |
| HotelSystem.StepsKeepInv | src/stores/bookingStore.ts:23-55 | Every write of every event keeps the invariant, the write in the middle of a booking included |
| HotelSystem.RunKeepsInv | src/stores/bookingStore.ts:23-55 | Any sequence of events keeps the invariant |
| HotelSystem.ReachableInv | src/stores/roomStore.ts:25-54 | Every state reachable from the seeded start satisfies the invariant and has distinct room ids |
| HotelSystem.ReachableSectionsPartition | src/app/my-booking/page.tsx:36-38 | In every reachable state, the guest page puts each of the guest's bookings in exactly one section |
| HotelSystem.BookingVisibleBeforeRoomOccupied | src/stores/bookingStore.ts:52-53 | After the first of a booking's two synchronous writes, the ledger holds the booking while the room is still available |
| Scenarios.TwoNightsInRoom101 | src/stores/bookingStore.ts:34-53 | Booking seed room 101 (80 a night) for two nights from the seed costs 160 and leaves it occupied |
| Scenarios.SeedUnavailableRoomsRefused | src/stores/bookingStore.ts:27-32 | From the seed, rooms 103 (occupied) and 201 (maintenance) are refused whatever the dates |
| Scenarios.SameDayStayAccepted | src/stores/bookingStore.ts:34-48 | A 10:00-14:00 stay on one day is accepted as one night, and both stored dates are that day |
| Scenarios.RebookableAfterOverride | src/app/admin/page.tsx:56-57 | Setting an existing room available leaves the ledger alone and makes the room bookable again |
| Scenarios.BookOverrideBook | src/app/admin/page.tsx:56-57 | From any state where a room is bookable, booking it, setting it available and booking it again are all accepted: two new bookings of that room for the same check-in |
| Scenarios.OverrideAllowsDoubleBooking | src/app/admin/page.tsx:56-57 | From the seed, booking room 101 for one night, setting it available and booking it again for another guest leaves two bookings of room 101 for the same night |

## Left out

- The AI room-suggestion flow: it is an opaque call to an external language model.
- Persistence and rehydration: local storage, the `hydrated` flags and the hydration effect. The guard takes `hydrated` as an input.
- Delays and interleavings. Each asynchronous action is its sequence of writes, applied one event at a time. Races between actions are not modelled, for example the command's final write restoring the entry it read before its first write.
- Floating point. Prices and timestamps are integers, and the night count uses integer ceiling division.
- Date rendering and parsing:
  - an invalid date (where `toISOString` throws) is not modelled;
  - confirming with an unset date is not modelled;
  - `format` output is not modelled.
- Id and token construction from the clock: ids and tokens are parameters.
- AuthStore.Register: the account list is a module-level array in the source. A page reload resets it to the two seed accounts while the session survives in storage. The model keeps the list in the state and does not model reloads.
- The login form, the header, toasts, routing calls, console logging and rendering.
- The toggle's log line for a connected room: it only prints.
- The power switch's toast text, which is presentation.
- AdminPage.TogglePower: the model speaks of power, light, air conditioning and status. The unchanged amenities, number and price follow from `RoomStore.ToggleRoomControl`.
- MyBookingPage.MyBookings: the page computes the guest's list when the user changes and keeps it until the next change. The model recomputes it from the ledger it is given.

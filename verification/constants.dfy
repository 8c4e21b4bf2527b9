/** The fixed room list the registry is initialised from. */
module Constants {
  import opened Types

  const Room101: Room := Room("room101", "101", "Standard Single", Available,
    ["Wifi", "TV", "Desk"], 80, Controls(false, false, true))

  const Room102: Room := Room("room102", "102", "Standard Double", Available,
    ["Wifi", "TV", "Mini-bar"], 120, Controls(false, false, true))

  const Room103: Room := Room("room103", "103", "Suite", Occupied,
    ["Wifi", "TV", "Mini-bar", "Jacuzzi"], 200, Controls(true, true, true))

  const Room201: Room := Room("room201", "201", "Deluxe King", Maintenance,
    ["Wifi", "Large TV", "Balcony", "Coffee Maker"], 180, Controls(false, false, false))

  const Room202: Room := Room("room202", "202", "Family Room", Available,
    ["Wifi", "TV", "Bunk Beds", "Kitchenette"], 220, Controls(false, false, true))

  const InitialRooms: seq<Room> := [Room101, Room102, Room103, Room201, Room202]

  /** Five rooms, pairwise distinct ids, in this order. */
  lemma SeedIds()
    ensures |InitialRooms| == 5
    ensures InitialRooms[0].id == "room101" && InitialRooms[1].id == "room102"
    ensures InitialRooms[2].id == "room103" && InitialRooms[3].id == "room201"
    ensures InitialRooms[4].id == "room202"
    ensures forall i, j :: 0 <= i < j < |InitialRooms| ==> InitialRooms[i].id != InitialRooms[j].id
  {
  }

  /** 101, 102 and 202 can be booked; 103 is occupied and 201 under maintenance. */
  lemma SeedStatuses()
    ensures Room101.status == Available && Room102.status == Available && Room202.status == Available
    ensures Room103.status == Occupied
    ensures Room201.status == Maintenance
  {
  }

  /** Every seed price is strictly positive. */
  lemma SeedPricesPositive()
    ensures forall i :: 0 <= i < |InitialRooms| ==> InitialRooms[i].pricePerNight > 0
  {
  }

  /** Room 201 has every switch off; every other seed room has power on. */
  lemma SeedControls()
    ensures Room201.currentControls == Controls(false, false, false)
    ensures forall i :: 0 <= i < |InitialRooms| && InitialRooms[i].id != "room201" ==>
              InitialRooms[i].currentControls.power
  {
  }
}

/**
 The admin dashboard's logic: the status tally behind the cards and the
 chart, the remote power switch, and the status-override buttons.
 */
module AdminPage {
  import opened Options
  import opened Types
  import Seqs
  import RoomStore

  /** The number of rooms with status `st`. */
  function CountStatus(rooms: seq<Room>, st: Status): nat {
    |Seqs.Filter(rooms, (room: Room) => room.status == st)|
  }

  /** Adding one room to the end adds one to its own status's count only. */
  lemma CountStatusSnoc(rooms: seq<Room>, room: Room, st: Status)
    ensures CountStatus(rooms + [room], st) == CountStatus(rooms, st) + (if room.status == st then 1 else 0)
  {
    Seqs.FilterAppend(rooms, [room], (r: Room) => r.status == st);
    assert [room][1..] == [];
  }

  /** Every room has exactly one of the three statuses, so the three counts add up to the room count. */
  lemma StatusCountsCoverAllRooms(rooms: seq<Room>)
    ensures CountStatus(rooms, Available) + CountStatus(rooms, Occupied) + CountStatus(rooms, Maintenance) == |rooms|
  {
    Seqs.FilterPartition(rooms, (room: Room) => room.status == Available, (room: Room) => room.status == Occupied,
                         (room: Room) => room.status == Maintenance);
  }

  /** Some room has status `st`. */
  ghost predicate Occurs(rooms: seq<Room>, st: Status) {
    exists i :: 0 <= i < |rooms| && rooms[i].status == st
  }

  /** A status occurs in the longer list when it occurs in the shorter one or is the new room's. */
  lemma OccursSnoc(rooms: seq<Room>, room: Room, st: Status)
    ensures Occurs(rooms + [room], st) <==> Occurs(rooms, st) || room.status == st
  {
    var rooms' := rooms + [room];
    if room.status == st {
      assert rooms'[|rooms|] == room;
    }
    if Occurs(rooms, st) {
      var i :| 0 <= i < |rooms| && rooms[i].status == st;
      assert rooms'[i] == rooms[i];
    }
    if Occurs(rooms', st) {
      var i :| 0 <= i < |rooms'| && rooms'[i].status == st;
      if i < |rooms| {
        assert rooms[i] == rooms'[i];
      }
    }
  }

  /** `acc` tallies `rooms`: its keys are the statuses present, each mapped to its count. */
  ghost predicate Tallied(acc: map<Status, nat>, rooms: seq<Room>) {
    && (forall st :: st in acc <==> Occurs(rooms, st))
    && (forall st :: st in acc ==> acc[st] == CountStatus(rooms, st))
    && (forall st :: st !in acc ==> CountStatus(rooms, st) == 0)
  }

  /** One step of the reduce: bump the count of the room's status, starting from zero. */
  function Bump(acc: map<Status, nat>, st: Status): map<Status, nat> {
    acc[st := (if st in acc then acc[st] else 0) + 1]
  }

  /** Bumping the next room's status tallies the longer prefix. */
  lemma BumpTallies(acc: map<Status, nat>, rooms: seq<Room>, room: Room)
    requires Tallied(acc, rooms)
    ensures Tallied(Bump(acc, room.status), rooms + [room])
  {
    forall st
      ensures Occurs(rooms + [room], st) <==> Occurs(rooms, st) || room.status == st
      ensures CountStatus(rooms + [room], st) == CountStatus(rooms, st) + (if room.status == st then 1 else 0)
    {
      OccursSnoc(rooms, room, st);
      CountStatusSnoc(rooms, room, st);
    }
  }

  /**
   `rooms.reduce(...)`: a map from each status that occurs to its number of
   rooms; a status no room has is absent.
   */
  method RoomStatusCounts(rooms: seq<Room>) returns (acc: map<Status, nat>)
    ensures forall st :: st in acc <==> exists i :: 0 <= i < |rooms| && rooms[i].status == st
    ensures forall st :: st in acc ==> acc[st] == CountStatus(rooms, st)
    ensures forall st :: st !in acc ==> CountStatus(rooms, st) == 0
  {
    acc := map[];
    var i := 0;
    while i < |rooms|
      invariant 0 <= i <= |rooms|
      invariant Tallied(acc, rooms[..i])
    {
      BumpTallies(acc, rooms[..i], rooms[i]);
      assert rooms[..i + 1] == rooms[..i] + [rooms[i]];
      acc := Bump(acc, rooms[i].status);
      i := i + 1;
    }
    assert rooms[..i] == rooms;
  }

  /** `count || 0`: an absent status shows as zero. */
  function CountOrZero(acc: map<Status, nat>, st: Status): nat {
    if st in acc then acc[st] else 0
  }

  datatype ChartRow = ChartRow(name: string, count: nat)

  /** The three cards and the chart rows. */
  datatype Dashboard = Dashboard(totalRooms: nat, occupiedRooms: nat, availableRooms: nat, chart: seq<ChartRow>)

  /** Builds the cards and chart from the tally, reading absent statuses as zero. */
  method BuildDashboard(rooms: seq<Room>) returns (d: Dashboard)
    ensures d.totalRooms == |rooms|
    ensures d.occupiedRooms == CountStatus(rooms, Occupied)
    ensures d.availableRooms == CountStatus(rooms, Available)
    ensures |d.chart| == 3
    ensures d.chart[0] == ChartRow("Available", CountStatus(rooms, Available))
    ensures d.chart[1] == ChartRow("Occupied", CountStatus(rooms, Occupied))
    ensures d.chart[2] == ChartRow("Maintenance", CountStatus(rooms, Maintenance))
    ensures d.chart[0].count + d.chart[1].count + d.chart[2].count == |rooms|
  {
    var counts := RoomStatusCounts(rooms);
    var chart := [
      ChartRow("Available", CountOrZero(counts, Available)),
      ChartRow("Occupied", CountOrZero(counts, Occupied)),
      ChartRow("Maintenance", CountOrZero(counts, Maintenance))
    ];
    StatusCountsCoverAllRooms(rooms);
    d := Dashboard(|rooms|, CountOrZero(counts, Occupied), CountOrZero(counts, Available), chart);
  }

  /** The power switch: toggles main power of that room only; the shown state plays no part. */
  function TogglePower(s: RoomStore.RoomState, roomId: string, currentPowerState: bool): (r: RoomStore.RoomState)
    ensures |r.rooms| == |s.rooms| && r.bleStates == s.bleStates
    ensures forall i :: 0 <= i < |s.rooms| ==>
              && r.rooms[i].currentControls.power == (s.rooms[i].currentControls.power != (s.rooms[i].id == roomId))
              && r.rooms[i].currentControls.light == s.rooms[i].currentControls.light
              && r.rooms[i].currentControls.ac == s.rooms[i].currentControls.ac
              && r.rooms[i].status == s.rooms[i].status
  {
    var r := RoomStore.ToggleRoomControl(s, roomId, Power);
    RoomStore.ToggleKeepsStatus(s, roomId, Power);
    assert forall i :: 0 <= i < |s.rooms| ==>
      r.rooms[i].currentControls.Get(Light) == s.rooms[i].currentControls.Get(Light) &&
      r.rooms[i].currentControls.Get(Ac) == s.rooms[i].currentControls.Get(Ac) &&
      r.rooms[i].currentControls.Get(Power) == (s.rooms[i].currentControls.Get(Power) != (s.rooms[i].id == roomId));
    r
  }

  /** Which override buttons a room's row offers. */
  datatype OverrideButtons = OverrideButtons(setAvailable: bool, setMaintenance: bool)

  function Buttons(room: Room): OverrideButtons {
    OverrideButtons(room.status != Available, room.status != Maintenance)
  }

  /** Every row offers at least one override; exactly the occupied rows offer both. */
  lemma ButtonsOffered(room: Room)
    ensures Buttons(room).setAvailable || Buttons(room).setMaintenance
    ensures Buttons(room).setAvailable && Buttons(room).setMaintenance <==> room.status == Occupied
    ensures !Buttons(room).setAvailable <==> room.status == Available
    ensures !Buttons(room).setMaintenance <==> room.status == Maintenance
  {
  }

  /** An override: the registry's status update, with no check on the transition. */
  function SetRoomStatus(s: RoomStore.RoomState, roomId: string, newStatus: Status): RoomStore.RoomState {
    RoomStore.UpdateRoomStatus(s, roomId, newStatus)
  }

  /** Any status can be overridden to any other, an occupied room to available included. */
  lemma OverrideAlwaysApplies(s: RoomStore.RoomState, roomId: string, newStatus: Status)
    requires RoomStore.HasRoom(s.rooms, roomId)
    ensures RoomStore.GetRoomById(SetRoomStatus(s, roomId, newStatus), roomId).Some?
    ensures RoomStore.GetRoomById(SetRoomStatus(s, roomId, newStatus), roomId).value.status == newStatus
  {
    RoomStore.UpdateThenGet(s, roomId, newStatus, roomId);
  }
}

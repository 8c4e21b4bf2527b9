/**
 The room registry and the simulated per-room device link.

 Each asynchronous link action is modelled as the sequence of store writes it
 performs, in order; the delays between them are not modelled. The last
 write is the state the action leaves behind.
 */
module RoomStore {
  import opened Options
  import opened Types
  import Seqs

  datatype RoomState = RoomState(rooms: seq<Room>, bleStates: map<string, LinkState>)

  const Disconnected: LinkState := LinkState(false, "Disconnected")
  const Connecting: LinkState := LinkState(false, "Connecting...")
  const Connected: LinkState := LinkState(true, "Connected")

  /** The status message shown while a command is in flight. */
  function SendingMessage(command: string): string {
    "Sending: " + command + "..."
  }

  /** The status message left once a command has gone out. */
  function SentMessage(command: string): string {
    "Command '" + command + "' sent."
  }

  /** The store as created, before the rooms are initialised. */
  const Empty: RoomState := RoomState([], map[])

  /** Some room carries id `roomId`. */
  ghost predicate HasRoom(rooms: seq<Room>, roomId: string) {
    exists i :: 0 <= i < |rooms| && rooms[i].id == roomId
  }

  /** Position `i` holds the first room with id `roomId`. */
  ghost predicate FirstWithId(rooms: seq<Room>, roomId: string, i: int) {
    && 0 <= i < |rooms|
    && rooms[i].id == roomId
    && forall j :: 0 <= j < i ==> rooms[j].id != roomId
  }

  /** No two rooms share an id. */
  ghost predicate DistinctIds(rooms: seq<Room>) {
    forall i, j :: 0 <= i < j < |rooms| ==> rooms[i].id != rooms[j].id
  }

  /** The connected flag and the status message tell the same story. */
  ghost predicate LinkCoherent(l: LinkState) {
    l.connected <==> l.statusMessage != Disconnected.statusMessage && l.statusMessage != Connecting.statusMessage
  }

  /** `after` agrees with `before` except that entry `roomId` is present and may differ. */
  ghost predicate OnlyEntryChanged(before: map<string, LinkState>, after: map<string, LinkState>, roomId: string) {
    && after.Keys == before.Keys + {roomId}
    && forall k :: k in before && k != roomId ==> after[k] == before[k]
  }

  /** The ids of `rooms`. */
  function RoomIds(rooms: seq<Room>): (ids: set<string>)
    ensures forall id :: id in ids <==> HasRoom(rooms, id)
  {
    set i | 0 <= i < |rooms| :: rooms[i].id
  }

  /** Replaces the room list and gives every room a fresh, disconnected link. */
  function InitializeRooms(initialRooms: seq<Room>): (r: RoomState)
    ensures r.rooms == initialRooms
    ensures forall id :: id in r.bleStates <==> HasRoom(initialRooms, id)
    ensures forall id :: id in r.bleStates ==> r.bleStates[id] == Disconnected
  {
    RoomState(initialRooms, map id | id in RoomIds(initialRooms) :: Disconnected)
  }

  /** The first room with the given id, if any. */
  function GetRoomById(s: RoomState, roomId: string): (r: Option<Room>)
    ensures r.None? <==> !HasRoom(s.rooms, roomId)
    ensures r.Some? ==> r.value.id == roomId
    ensures r.Some? ==> exists i :: FirstWithId(s.rooms, roomId, i) && s.rooms[i] == r.value
  {
    match Seqs.FindIndex(s.rooms, (room: Room) => room.id == roomId)
    case None => None
    case Some(i) =>
      assert FirstWithId(s.rooms, roomId, i);
      Some(s.rooms[i])
  }

  /** Sets the status of every room with id `roomId`; nothing else changes. */
  function UpdateRoomStatus(s: RoomState, roomId: string, status: Status): (r: RoomState)
    ensures r.bleStates == s.bleStates
    ensures |r.rooms| == |s.rooms|
    ensures forall i :: 0 <= i < |s.rooms| ==>
              r.rooms[i].status == (if s.rooms[i].id == roomId then status else s.rooms[i].status)
    ensures forall i :: 0 <= i < |s.rooms| ==> r.rooms[i].(status := s.rooms[i].status) == s.rooms[i]
  {
    s.(rooms := Seqs.Map(s.rooms, (room: Room) => if room.id == roomId then room.(status := status) else room))
  }

  /** Negates switch `control` of every room with id `roomId`; nothing else changes. */
  function ToggleRoomControl(s: RoomState, roomId: string, control: Control): (r: RoomState)
    ensures r.bleStates == s.bleStates
    ensures |r.rooms| == |s.rooms|
    ensures forall i :: 0 <= i < |s.rooms| ==>
              r.rooms[i].currentControls.Get(control) == (s.rooms[i].currentControls.Get(control) != (s.rooms[i].id == roomId))
    ensures forall i, c :: 0 <= i < |s.rooms| && c != control ==>
              r.rooms[i].currentControls.Get(c) == s.rooms[i].currentControls.Get(c)
    ensures forall i :: 0 <= i < |s.rooms| ==> r.rooms[i].(currentControls := s.rooms[i].currentControls) == s.rooms[i]
  {
    s.(rooms := Seqs.Map(s.rooms, (room: Room) =>
      if room.id == roomId then room.(currentControls := room.currentControls.Flip(control)) else room))
  }

  /** The two writes of a connection: "Connecting..." at once, "Connected" after the delay. */
  function ConnectSteps(s: RoomState, roomId: string): (steps: seq<RoomState>)
    ensures |steps| == 2
    ensures roomId in steps[0].bleStates && steps[0].bleStates[roomId] == Connecting
    ensures roomId in steps[1].bleStates && steps[1].bleStates[roomId] == Connected
    ensures forall k :: 0 <= k < 2 ==> steps[k].rooms == s.rooms
    ensures forall k :: 0 <= k < 2 ==> OnlyEntryChanged(s.bleStates, steps[k].bleStates, roomId)
  {
    var connecting := s.(bleStates := s.bleStates[roomId := Connecting]);
    [connecting, connecting.(bleStates := connecting.bleStates[roomId := Connected])]
  }

  /** The single write of a disconnection, made after the delay. */
  function DisconnectSteps(s: RoomState, roomId: string): (steps: seq<RoomState>)
    ensures |steps| == 1
    ensures roomId in steps[0].bleStates && steps[0].bleStates[roomId] == Disconnected
    ensures steps[0].rooms == s.rooms
    ensures OnlyEntryChanged(s.bleStates, steps[0].bleStates, roomId)
  {
    [s.(bleStates := s.bleStates[roomId := Disconnected])]
  }

  /** The link is up for this room; an absent entry counts as down. */
  predicate IsConnected(s: RoomState, roomId: string) {
    roomId in s.bleStates && s.bleStates[roomId].connected
  }

  /**
   The writes of a command: none when the link is down; otherwise the
   "Sending" message and then the "sent" message, both written over the
   entry read before the first write.
   */
  function SendCommandSteps(s: RoomState, roomId: string, command: string): (steps: seq<RoomState>)
    ensures steps == [] <==> !IsConnected(s, roomId)
    ensures steps != [] ==> |steps| == 2
    ensures steps != [] ==> roomId in steps[0].bleStates && steps[0].bleStates[roomId] == LinkState(true, SendingMessage(command))
    ensures steps != [] ==> roomId in steps[1].bleStates && steps[1].bleStates[roomId] == LinkState(true, SentMessage(command))
    ensures forall k :: 0 <= k < |steps| ==> steps[k].rooms == s.rooms
    ensures forall k :: 0 <= k < |steps| ==> steps[k].bleStates.Keys == s.bleStates.Keys
    ensures forall k, id :: 0 <= k < |steps| && id in s.bleStates && id != roomId ==>
              steps[k].bleStates[id] == s.bleStates[id]
  {
    if !IsConnected(s, roomId) then []
    else
      var snapshot := s.bleStates[roomId];
      var sending := s.(bleStates := s.bleStates[roomId := snapshot.(statusMessage := SendingMessage(command))]);
      [sending, sending.(bleStates := sending.bleStates[roomId := snapshot.(statusMessage := SentMessage(command))])]
  }

  /** The state an action's writes leave behind: the last write, or `s` when there is none. */
  function Final(s: RoomState, steps: seq<RoomState>): RoomState {
    if steps == [] then s else steps[|steps| - 1]
  }

  /** A status update keeps every room's id in place. */
  lemma UpdateKeepsIds(s: RoomState, roomId: string, status: Status)
    ensures forall i :: 0 <= i < |s.rooms| ==> UpdateRoomStatus(s, roomId, status).rooms[i].id == s.rooms[i].id
  {
    var r := UpdateRoomStatus(s, roomId, status);
    forall i | 0 <= i < |s.rooms|
      ensures r.rooms[i].id == s.rooms[i].id
    {
      assert r.rooms[i].(status := s.rooms[i].status).id == r.rooms[i].id;
    }
  }

  /** Looking up any id after an update finds the room found before, with its status updated when the ids match. */
  lemma LookupAfterUpdate(s: RoomState, roomId: string, status: Status, id: string)
    ensures GetRoomById(UpdateRoomStatus(s, roomId, status), id) ==
              (match GetRoomById(s, id)
               case None => None
               case Some(room) => Some(if id == roomId then room.(status := status) else room))
  {
    var r := UpdateRoomStatus(s, roomId, status);
    UpdateKeepsIds(s, roomId, status);
    FindAfterRename(s, r, id);
    if GetRoomById(s, id).Some? {
      var i :| FirstWithId(s.rooms, id, i) && s.rooms[i] == GetRoomById(s, id).value;
      var j :| FirstWithId(r.rooms, id, j) && r.rooms[j] == GetRoomById(r, id).value;
      assert FirstWithId(r.rooms, id, i);
      assert i == j;
    }
  }

  /** Looking a room up after setting its status finds the same room with the new status. */
  lemma UpdateThenGet(s: RoomState, roomId: string, status: Status, other: string)
    ensures GetRoomById(UpdateRoomStatus(s, roomId, status), roomId) ==
              (match GetRoomById(s, roomId) case None => None case Some(room) => Some(room.(status := status)))
    ensures other != roomId ==> GetRoomById(UpdateRoomStatus(s, roomId, status), other) == GetRoomById(s, other)
  {
    LookupAfterUpdate(s, roomId, status, roomId);
    LookupAfterUpdate(s, roomId, status, other);
  }

  /** Two room lists with the same ids position by position have the same lookups. */
  lemma FindAfterRename(s: RoomState, r: RoomState, roomId: string)
    requires |r.rooms| == |s.rooms|
    requires forall i :: 0 <= i < |s.rooms| ==> r.rooms[i].id == s.rooms[i].id
    ensures GetRoomById(r, roomId).None? == GetRoomById(s, roomId).None?
    ensures forall i :: FirstWithId(s.rooms, roomId, i) <==> FirstWithId(r.rooms, roomId, i)
  {
    if HasRoom(s.rooms, roomId) {
      var i :| 0 <= i < |s.rooms| && s.rooms[i].id == roomId;
      assert r.rooms[i].id == roomId;
    }
    if HasRoom(r.rooms, roomId) {
      var i :| 0 <= i < |r.rooms| && r.rooms[i].id == roomId;
      assert s.rooms[i].id == roomId;
    }
  }

  /** Setting the status of an id no room carries changes nothing. */
  lemma UpdateUnknownIsNoop(s: RoomState, roomId: string, status: Status)
    requires !HasRoom(s.rooms, roomId)
    ensures UpdateRoomStatus(s, roomId, status) == s
  {
    var r := UpdateRoomStatus(s, roomId, status);
    forall i | 0 <= i < |s.rooms|
      ensures r.rooms[i] == s.rooms[i]
    {
      assert s.rooms[i].id != roomId;
    }
  }

  /** Toggling the same switch twice gives back the original rooms. */
  lemma ToggleTwiceRestores(s: RoomState, roomId: string, control: Control)
    ensures ToggleRoomControl(ToggleRoomControl(s, roomId, control), roomId, control) == s
  {
    var once := ToggleRoomControl(s, roomId, control);
    var twice := ToggleRoomControl(once, roomId, control);
    forall i | 0 <= i < |s.rooms|
      ensures twice.rooms[i] == s.rooms[i]
    {
      assert once.rooms[i].id == s.rooms[i].id by {
        assert once.rooms[i].(currentControls := s.rooms[i].currentControls) == s.rooms[i];
      }
      ControlsEqual(twice.rooms[i].currentControls, s.rooms[i].currentControls);
      assert twice.rooms[i].(currentControls := once.rooms[i].currentControls) == once.rooms[i];
      assert once.rooms[i].(currentControls := s.rooms[i].currentControls) == s.rooms[i];
    }
  }

  /** What a toggle does to the rooms does not depend on the link state. */
  lemma ToggleIgnoresLink(s: RoomState, links: map<string, LinkState>, roomId: string, control: Control)
    ensures ToggleRoomControl(s.(bleStates := links), roomId, control).rooms == ToggleRoomControl(s, roomId, control).rooms
  {
  }

  /** Toggling a switch never changes any room's status. */
  lemma ToggleKeepsStatus(s: RoomState, roomId: string, control: Control)
    ensures forall i :: 0 <= i < |s.rooms| ==> ToggleRoomControl(s, roomId, control).rooms[i].status == s.rooms[i].status
  {
    var r := ToggleRoomControl(s, roomId, control);
    forall i | 0 <= i < |s.rooms|
      ensures r.rooms[i].status == s.rooms[i].status
    {
      assert r.rooms[i].(currentControls := s.rooms[i].currentControls) == s.rooms[i];
    }
  }

  /** Every write of every link action leaves each entry it touches coherent. */
  lemma LinkWritesCoherent(s: RoomState, roomId: string, command: string)
    ensures forall k :: 0 <= k < 2 ==> LinkCoherent(ConnectSteps(s, roomId)[k].bleStates[roomId])
    ensures LinkCoherent(DisconnectSteps(s, roomId)[0].bleStates[roomId])
    ensures forall k :: 0 <= k < |SendCommandSteps(s, roomId, command)| ==>
              LinkCoherent(SendCommandSteps(s, roomId, command)[k].bleStates[roomId])
  {
    var sending := SendingMessage(command);
    var sent := SentMessage(command);
    assert sending[0] == 'S';
    assert sent[2] == 'm';
    assert Connecting.statusMessage[2] == 'n';
    assert sending != Disconnected.statusMessage && sending != Connecting.statusMessage;
    assert sent != Disconnected.statusMessage && sent != Connecting.statusMessage;
  }
}

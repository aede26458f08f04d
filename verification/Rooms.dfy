/** Rooms on one chat server as values: members, screen share, cameras and
    audio, the Redis room pins, and what each room operation does to them. */
module Rooms {
  import opened Common

  datatype Share = Share(
    sharerId: int,
    sharerName: string,
    controllerId: Option<int>,
    controllerName: Option<string>)

  /** A member's handler is known by its user id and username; `audio` holds the
      owners of jitter buffers. */
  datatype RoomData = RoomData(
    clients: map<int, string>,
    screen: Option<Share>,
    cameras: map<int, string>,
    audio: set<int>)

  type RoomTable = map<string, RoomData>

  type Pins = map<string, string>

  const EMPTY_ROOM := RoomData(map[], None, map[], {})

  datatype JoinOutcome = Joined | Redirected(server: string) | Failed

  /** DM rooms are server-agnostic: never looked up in Redis, never pinned. */
  predicate IsDm(code: string) {
    "DM-" <= code
  }

  /* ---------- screen share ---------- */

  function StartShare(s: Option<Share>, u: int, name: string): (Option<Share>, bool) {
    if s.Some? then (s, s.value.sharerId == u) else (Some(Share(u, name, None, None)), true)
  }

  function StopShare(s: Option<Share>, u: int): (Option<Share>, bool) {
    if s.Some? && s.value.sharerId == u then (None, true) else (s, false)
  }

  function SetController(s: Option<Share>, sharer: int, target: Option<int>, name: Option<string>)
    : (Option<Share>, bool)
  {
    if s.None? || s.value.sharerId != sharer then (s, false)
    else (Some(s.value.(controllerId := target, controllerName := name)), true)
  }

  function ClearControllerIf(s: Option<Share>, u: int): (Option<Share>, bool) {
    if s.None? || s.value.controllerId != Some(u) then (s, false)
    else (Some(s.value.(controllerId := None, controllerName := None)), true)
  }

  /** A departing user gives up its share, or else its control grant. */
  function Surrender(s: Option<Share>, u: int): Option<Share> {
    var (stopped, ok) := StopShare(s, u);
    if ok then stopped else ClearControllerIf(s, u).0
  }

  /* ---------- joining and leaving ---------- */

  /** `stored` says whether the room row could be found or created. */
  function Join(me: string, pins: Pins, rooms: RoomTable, code: string, u: int, name: string, stored: bool)
    : (RoomTable, Pins, JoinOutcome)
  {
    if !IsDm(code) && code in pins && pins[code] != me then
      (rooms, pins, Redirected(pins[code]))
    else if code in rooms then
      (rooms[code := rooms[code].(clients := rooms[code].clients[u := name])], pins, Joined)
    else if !stored then
      (rooms, pins, Failed)
    else
      (rooms[code := EMPTY_ROOM.(clients := map[u := name])],
       if IsDm(code) then pins else pins[code := me],
       Joined)
  }

  /** What the room manager forgets about a user; the share is the handler's concern. */
  function Without(d: RoomData, u: int): RoomData {
    d.(clients := d.clients - {u}, cameras := d.cameras - {u}, audio := d.audio - {u})
  }

  function Leave(pins: Pins, rooms: RoomTable, code: string, u: int): (RoomTable, Pins) {
    if code !in rooms then (rooms, pins)
    else
      var d := Without(rooms[code], u);
      if d.clients != map[] then (rooms[code := d], pins)
      else (rooms - {code}, if IsDm(code) then pins else pins - {code})
  }

  /** The rooms that lose their last member with `u`. */
  function EmptiedBy(rooms: RoomTable, u: int): set<string> {
    set c | c in rooms && u in rooms[c].clients && rooms[c].clients - {u} == map[]
  }

  function RemoveFromAll(pins: Pins, rooms: RoomTable, u: int): (RoomTable, Pins) {
    (map c | c in rooms && c !in EmptiedBy(rooms, u) ::
       if u in rooms[c].clients then Without(rooms[c], u) else rooms[c],
     pins - set c | c in EmptiedBy(rooms, u) && !IsDm(c))
  }

  /* ---------- one client's requests ---------- */

  datatype Request =
    | JoinRoom(code: string, stored: bool)
    | LeaveRoom(code: string)
    | Chat(code: string, stored: bool)
    | ScreenStart(code: string)
    | ScreenStop(code: string)
    | RemoteGrant(code: string, target: Option<int>, granted: bool)
    | RemoteEvent(code: string)
    | CameraStart(code: string)
    | CameraStop(code: string)
    | AudioChunk(code: string)
    | Goodbye

  /** The server's rooms, the pins, the client's own room list, and the user a
      remote-control event is forwarded to. */
  datatype Served = Served(rooms: RoomTable, pins: Pins, current: set<string>, forwarded: Option<int>)

  /** What `_handle_...` and, for `Goodbye`, `_cleanup` do for user `u`. */
  function Serve(me: string, pins: Pins, rooms: RoomTable, u: int, name: string, current: set<string>, req: Request)
    : Served
  {
    var same := Served(rooms, pins, current, None);
    match req
    case JoinRoom(code, stored) =>
      if code == "" then same
      else
        var (rooms', pins', outcome) := Join(me, pins, rooms, code, u, name, stored);
        if outcome == Joined then Served(rooms', pins', current + {code}, None) else same
    case LeaveRoom(code) =>
      if code == "" then same
      else
        var (rooms', pins') := Leave(pins, Surrendered(rooms, code, u), code, u);
        Served(rooms', pins', current - {code}, None)
    case Chat(code, stored) =>
      if IsDm(code) && !(code in rooms && u in rooms[code].clients) then
        var (rooms', pins', outcome) := Join(me, pins, rooms, code, u, name, stored);
        if outcome == Joined then Served(rooms', pins', current + {code}, None) else same
      else same
    case ScreenStart(code) =>
      if code !in current || code !in rooms then same
      else same.(rooms := rooms[code := rooms[code].(screen := StartShare(rooms[code].screen, u, name).0)])
    case ScreenStop(code) =>
      if code !in current || code !in rooms then same
      else same.(rooms := rooms[code := rooms[code].(screen := StopShare(rooms[code].screen, u).0)])
    case RemoteGrant(code, target, granted) =>
      if code !in current || code !in rooms then same
      else
        var d := rooms[code];
        if d.screen.None? || d.screen.value.sharerId != u then same
        else if granted then
          if target.Some? && target.value in d.clients
          then
            var name := Some(d.clients[target.value]);
            same.(rooms := rooms[code := d.(screen := SetController(d.screen, u, target, name).0)])
          else same
        else same.(rooms := rooms[code := d.(screen := SetController(d.screen, u, None, None).0)])
    case RemoteEvent(code) =>
      if code !in current || code !in rooms then same
      else
        var d := rooms[code];
        if d.screen.None? || d.screen.value.controllerId != Some(u) || d.screen.value.sharerId !in d.clients then same
        else same.(forwarded := Some(d.screen.value.sharerId))
    case CameraStart(code) =>
      if code !in current || code !in rooms then same
      else same.(rooms := rooms[code := rooms[code].(cameras := rooms[code].cameras[u := name])])
    case CameraStop(code) =>
      if code !in current || code !in rooms then same
      else same.(rooms := rooms[code := rooms[code].(cameras := rooms[code].cameras - {u})])
    case AudioChunk(code) =>
      if code !in current || code !in rooms then same
      else same.(rooms := rooms[code := rooms[code].(audio := rooms[code].audio + {u})])
    case Goodbye =>
      var (rooms', pins') := RemoveFromAll(pins, GiveUp(rooms, u, current), u);
      Served(rooms', pins', current, None)
  }

  /** First half of leaving one room. */
  function Surrendered(rooms: RoomTable, code: string, u: int): RoomTable {
    if code in rooms then rooms[code := rooms[code].(screen := Surrender(rooms[code].screen, u))] else rooms
  }

  /** First half of the cleanup: shares, grants and cameras of the listed rooms. */
  function GiveUp(rooms: RoomTable, u: int, current: set<string>): RoomTable {
    map c | c in rooms ::
      if c in current
      then rooms[c].(screen := Surrender(rooms[c].screen, u), cameras := rooms[c].cameras - {u})
      else rooms[c]
  }
}

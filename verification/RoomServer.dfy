/** The chat server's room objects: the screen relay, the camera registry, the
    room that owns one of each, the room manager with its Redis pins, and a client
    handler that looks these objects up and calls them. What a manager's objects
    hold together is a table of `Rooms`, and each method is proved against the
    functions on that table. */
module RoomServer {
  import opened Common
  import opened Rooms

  class ScreenRelayState {
    var share: Option<Share>

    constructor ()
      ensures share == None
    {
      share := None;
    }

    method StartShare(u: int, name: string) returns (ok: bool)
      modifies this
      ensures (share, ok) == Rooms.StartShare(old(share), u, name)
      ensures ok <==> old(share).None? || old(share).value.sharerId == u
    {
      if share.Some? {
        return share.value.sharerId == u;
      }
      share := Some(Share(u, name, None, None));
      ok := true;
    }

    method StopShare(u: int) returns (cleared: bool)
      modifies this
      ensures (share, cleared) == Rooms.StopShare(old(share), u)
      ensures cleared <==> old(share).Some? && old(share).value.sharerId == u
    {
      if share.None? { return false; }
      if share.value.sharerId != u { return false; }
      share := None;
      cleared := true;
    }

    method SetController(sharer: int, target: Option<int>, name: Option<string>) returns (ok: bool)
      modifies this
      ensures (share, ok) == Rooms.SetController(old(share), sharer, target, name)
      ensures ok <==> old(share).Some? && old(share).value.sharerId == sharer
    {
      if share.None? { return false; }
      if share.value.sharerId != sharer { return false; }
      share := Some(share.value.(controllerId := target, controllerName := name));
      ok := true;
    }

    method ClearControllerIf(u: int) returns (cleared: bool)
      modifies this
      ensures (share, cleared) == Rooms.ClearControllerIf(old(share), u)
      ensures cleared <==> old(share).Some? && old(share).value.controllerId == Some(u)
    {
      if share.None? { return false; }
      if share.value.controllerId != Some(u) { return false; }
      share := Some(share.value.(controllerId := None, controllerName := None));
      cleared := true;
    }
  }

  class CameraState {
    var active: map<int, string>

    constructor ()
      ensures active == map[]
    {
      active := map[];
    }

    method StartCamera(u: int, name: string) returns (changed: bool)
      modifies this
      ensures active == old(active)[u := name] && (changed <==> u !in old(active))
    {
      changed := u !in active;
      active := active[u := name];
    }

    method StopCamera(u: int) returns (changed: bool)
      modifies this
      ensures active == old(active) - {u} && (changed <==> u in old(active))
    {
      changed := u in active;
      active := active - {u};
    }

    /** The active users in ascending order of user id. */
    method GetActive() returns (users: seq<(int, string)>)
      ensures |users| == |Sorted(active.Keys)|
      ensures forall i :: 0 <= i < |users| ==>
        users[i].0 == Sorted(active.Keys)[i] && users[i].0 in active && users[i].1 == active[users[i].0]
    {
      var ids := Sorted(active.Keys);
      assert forall i :: 0 <= i < |ids| ==> ids[i] in ids;
      users := [];
      var i := 0;
      while i < |ids|
        invariant 0 <= i <= |ids| && |users| == i
        invariant forall j :: 0 <= j < i ==> users[j] == (ids[j], active[ids[j]])
      {
        users := users + [(ids[i], active[ids[i]])];
        i := i + 1;
      }
    }
  }

  class Redis {
    var pins: Pins

    constructor ()
      ensures pins == map[]
    {
      pins := map[];
    }
  }

  class Room {
    const screen: ScreenRelayState
    const camera: CameraState
    var clients: map<int, string>
    var audio: set<int>

    constructor ()
      ensures fresh(screen) && fresh(camera) && Data() == EMPTY_ROOM
    {
      screen := new ScreenRelayState();
      camera := new CameraState();
      clients, audio := map[], {};
    }

    ghost function Data(): RoomData
      reads this, screen, camera
    {
      RoomData(clients, screen.share, camera.active, audio)
    }

    /** A user's client, camera and jitter buffer go. */
    method Remove(u: int)
      modifies this, camera
      ensures Data() == Without(old(Data()), u)
    {
      audio := audio - {u};
      var stopped := camera.StopCamera(u);
      clients := clients - {u};
    }
  }

  class RoomManager {
    const serverId: string
    const redis: Redis
    var rooms: map<string, Room>

    constructor (serverId: string, redis: Redis)
      ensures this.serverId == serverId && this.redis == redis && Valid() && Table() == map[]
    {
      this.serverId, this.redis, rooms := serverId, redis, map[];
    }

    /** No two rooms share an object. */
    ghost predicate Valid()
      reads this
    {
      forall c, d :: c in rooms && d in rooms && c != d ==>
        rooms[c] != rooms[d] && rooms[c].screen != rooms[d].screen && rooms[c].camera != rooms[d].camera
    }

    ghost function Places(): set<Room>
      reads this
    {
      set c | c in rooms :: rooms[c]
    }

    ghost function Screens(): set<ScreenRelayState>
      reads this
    {
      set c | c in rooms :: rooms[c].screen
    }

    ghost function Cameras(): set<CameraState>
      reads this
    {
      set c | c in rooms :: rooms[c].camera
    }

    ghost function Table(): RoomTable
      reads this, Places(), Screens(), Cameras()
    {
      map c | c in rooms :: rooms[c].Data()
    }

    /** When no room has changed, the table has not. */
    twostate lemma Untouched()
      requires old(Valid()) && rooms == old(rooms)
      requires forall c :: c in rooms ==> rooms[c].Data() == old(rooms[c].Data())
      ensures Valid() && Table() == old(Table())
    {
      var before := old(Table());
      assert before.Keys == rooms.Keys;
    }

    /** When only the objects of one room have changed, only its entry has. */
    twostate lemma OneChanged(code: string)
      requires old(Valid()) && rooms == old(rooms) && code in rooms
      requires forall c :: c in rooms && c != code ==> rooms[c].Data() == old(rooms[c].Data())
      ensures Valid()
      ensures Table() == old(Table())[code := rooms[code].Data()]
    {
      var before := old(Table());
      assert before.Keys == rooms.Keys;
    }

    /** When one empty room has been added. */
    twostate lemma OneAdded(code: string)
      requires code in rooms && rooms == old(rooms)[code := rooms[code]] && rooms[code].Data() == EMPTY_ROOM
      requires forall c :: c in old(rooms) && c != code ==> rooms[c].Data() == old(rooms[c].Data())
      ensures Table() == old(Table())[code := EMPTY_ROOM]
    {
      var before := old(Table());
      assert before.Keys == old(rooms).Keys;
    }

    /** When one room has been dropped and the others not touched, its entry is gone. */
    twostate lemma OneGone(code: string)
      requires old(Valid()) && rooms == old(rooms) - {code}
      requires forall c :: c in rooms ==> rooms[c].Data() == old(rooms[c].Data())
      ensures Valid()
      ensures Table() == old(Table()) - {code}
    {
      var before := old(Table());
      assert before.Keys == old(rooms).Keys;
    }

    method JoinRoom(code: string, u: int, name: string, stored: bool) returns (outcome: JoinOutcome)
      requires Valid()
      modifies this, redis, Places(), Screens(), Cameras()
      ensures Valid()
      ensures (Table(), redis.pins, outcome) == Join(serverId, old(redis.pins), old(Table()), code, u, name, stored)
    {
      if !IsDm(code) && code in redis.pins && redis.pins[code] != serverId {
        return Redirected(redis.pins[code]);
      }
      if code !in rooms {
        if !stored { return Failed; }
        OpenRoom(code);
      }
      JoinsNew(old(Table()), code, u, name);
      Enter(code, u, name);
      outcome := Joined;
    }

    /** A new room; a regular one is pinned to this server. */
    method OpenRoom(code: string)
      requires Valid() && code !in rooms
      modifies this, redis
      ensures Valid() && code in rooms && fresh(rooms[code])
      ensures Table() == old(Table())[code := EMPTY_ROOM]
      ensures redis.pins == if IsDm(code) then old(redis.pins) else old(redis.pins)[code := serverId]
    {
      if !IsDm(code) {
        redis.pins := redis.pins[code := serverId];
      }
      var room := new Room();
      Untouched();
      File(code, room);
    }

    method File(code: string, room: Room)
      requires Valid() && code !in rooms && room.Data() == EMPTY_ROOM
      requires forall c :: c in rooms ==>
        rooms[c] != room && rooms[c].screen != room.screen && rooms[c].camera != room.camera
      modifies this`rooms
      ensures Valid() && rooms == old(rooms)[code := room] && Table() == old(Table())[code := EMPTY_ROOM]
    {
      rooms := rooms[code := room];
      OneAdded(code);
    }

    method Enter(code: string, u: int, name: string)
      requires Valid() && code in rooms
      modifies rooms[code]
      ensures Valid()
      ensures Table() == old(Table())[code := old(Table())[code].(clients := old(Table())[code].clients[u := name])]
    {
      rooms[code].clients := rooms[code].clients[u := name];
      OneChanged(code);
    }

    method LeaveRoom(code: string, u: int) returns (remaining: set<int>)
      requires Valid()
      modifies this, redis, Places(), Screens(), Cameras()
      ensures Valid()
      ensures (Table(), redis.pins) == Leave(old(redis.pins), old(Table()), code, u)
      ensures remaining == if code in Table() then Table()[code].clients.Keys else {}
    {
      if code !in rooms { return {}; }
      RemoveFrom(code, u);
      remaining := if code in rooms then rooms[code].clients.Keys else {};
    }

    /** One turn of the removal loop. */
    method RemoveMember(code: string, u: int) returns (was: bool)
      requires Valid() && code in rooms
      modifies this, redis, Places(), Screens(), Cameras()
      ensures Valid() && (rooms == old(rooms) || rooms == old(rooms) - {code})
      ensures was <==> u in old(Table())[code].clients
      ensures (Table(), redis.pins) ==
        if was then Leave(old(redis.pins), old(Table()), code, u) else (old(Table()), old(redis.pins))
    {
      was := u in rooms[code].clients;
      if was { RemoveFrom(code, u); }
    }

    /** One room without the user; a room this empties is dropped and unpinned. */
    method RemoveFrom(code: string, u: int)
      requires Valid() && code in rooms
      modifies this, redis, Places(), Screens(), Cameras()
      ensures Valid() && (rooms == old(rooms) || rooms == old(rooms) - {code})
      ensures (Table(), redis.pins) == Leave(old(redis.pins), old(Table()), code, u)
    {
      rooms[code].Remove(u);
      OneChanged(code);
      if rooms[code].clients == map[] {
        if !IsDm(code) {
          redis.pins := redis.pins - {code};
        }
        rooms := rooms - {code};
        OneGone(code);
      }
    }

    method GetRoomClients(code: string) returns (clients: map<int, string>)
      ensures clients == if code in Table() then Table()[code].clients else map[]
    {
      clients := if code in rooms then rooms[code].clients else map[];
    }

    method RemoveClientFromAllRooms(u: int) returns (left: set<string>)
      requires Valid()
      modifies this, redis, Places(), Screens(), Cameras()
      ensures Valid()
      ensures (Table(), redis.pins) == RemoveFromAll(old(redis.pins), old(Table()), u)
      ensures left == set c | c in old(Table()) && u in old(Table())[c].clients
    {
      ghost var table, pins := Table(), redis.pins;
      left := {};
      var todo := rooms.Keys;
      assert todo == table.Keys;
      while todo != {}
        invariant Valid() && forall c :: c in rooms ==> c in old(rooms) && rooms[c] == old(rooms)[c]
        invariant todo <= table.Keys
        invariant Table() == PartlyRemoved(table, u, todo)
        invariant redis.pins == pins - PartlyUnpinned(table, u, todo)
        invariant left == PartlyLeft(table, u, todo)
        decreases todo
      {
        SomeCode(todo);
        var code :| code in todo;
        RemoveOne(table, pins, u, todo, code);
        assert code in Table();
        todo := todo - {code};
        var was := RemoveMember(code, u);
        left := left + if was then {code} else {};
      }
      AllRemoved(table, pins, u);
    }
  }

  lemma JoinsNew(rooms: RoomTable, code: string, u: int, name: string)
    ensures rooms[code := EMPTY_ROOM][code := EMPTY_ROOM.(clients := EMPTY_ROOM.clients[u := name])]
         == rooms[code := EMPTY_ROOM.(clients := map[u := name])]
  {
  }

  lemma SomeCode(codes: set<string>)
    ensures codes == {} || exists c :: c in codes
  {
    assert codes == {} || exists c :: c in codes;
  }

  function PartlyRemoved(rooms: RoomTable, u: int, todo: set<string>): RoomTable {
    map c | c in rooms && (c in todo || c !in EmptiedBy(rooms, u)) ::
      if c !in todo && u in rooms[c].clients then Without(rooms[c], u) else rooms[c]
  }

  function PartlyUnpinned(rooms: RoomTable, u: int, todo: set<string>): set<string> {
    set c | c in EmptiedBy(rooms, u) && c !in todo && !IsDm(c)
  }

  function PartlyLeft(rooms: RoomTable, u: int, todo: set<string>): set<string> {
    set c | c in rooms && c !in todo && u in rooms[c].clients
  }

  /** One turn of the removal loop is what leaving that room does. */
  lemma RemoveOne(rooms: RoomTable, pins: Pins, u: int, todo: set<string>, code: string)
    requires code in todo && todo <= rooms.Keys
    ensures code in PartlyRemoved(rooms, u, todo) && PartlyRemoved(rooms, u, todo)[code] == rooms[code]
    ensures (PartlyRemoved(rooms, u, todo - {code}), pins - PartlyUnpinned(rooms, u, todo - {code})) ==
      if u in rooms[code].clients
      then Leave(pins - PartlyUnpinned(rooms, u, todo), PartlyRemoved(rooms, u, todo), code, u)
      else (PartlyRemoved(rooms, u, todo), pins - PartlyUnpinned(rooms, u, todo))
    ensures PartlyLeft(rooms, u, todo - {code}) ==
      PartlyLeft(rooms, u, todo) + if u in rooms[code].clients then {code} else {}
  {
    UnpinOne(rooms, u, todo, code);
    DropOne(rooms, u, todo, code);
    var gone := PartlyUnpinned(rooms, u, todo);
    assert gone + {} == gone;
    assert pins - gone - {code} == pins - (gone + {code});
  }

  lemma DropOne(rooms: RoomTable, u: int, todo: set<string>, code: string)
    requires code in todo && todo <= rooms.Keys
    ensures var before, next := PartlyRemoved(rooms, u, todo), PartlyRemoved(rooms, u, todo - {code});
            next == if u !in rooms[code].clients then before
                    else if code in EmptiedBy(rooms, u) then before - {code}
                    else before[code := Without(rooms[code], u)]
  {
  }

  lemma UnpinOne(rooms: RoomTable, u: int, todo: set<string>, code: string)
    requires code in todo && todo <= rooms.Keys
    ensures code in EmptiedBy(rooms, u) <==> u in rooms[code].clients && Without(rooms[code], u).clients == map[]
    ensures PartlyUnpinned(rooms, u, todo - {code}) ==
      PartlyUnpinned(rooms, u, todo) + if code in EmptiedBy(rooms, u) && !IsDm(code) then {code} else {}
  {
  }

  lemma AllRemoved(rooms: RoomTable, pins: Pins, u: int)
    ensures (PartlyRemoved(rooms, u, {}), pins - PartlyUnpinned(rooms, u, {})) == RemoveFromAll(pins, rooms, u)
    ensures PartlyLeft(rooms, u, {}) == set c | c in rooms && u in rooms[c].clients
  {
    assert PartlyRemoved(rooms, u, {}) == RemoveFromAll(pins, rooms, u).0;
    assert PartlyUnpinned(rooms, u, {}) == set c | c in EmptiedBy(rooms, u) && !IsDm(c);
  }

  class ClientHandler {
    const userId: int
    const username: string
    const manager: RoomManager
    var currentRooms: set<string>

    constructor (userId: int, username: string, manager: RoomManager)
      ensures this.userId == userId && this.username == username && this.manager == manager && currentRooms == {}
    {
      this.userId, this.username, this.manager, currentRooms := userId, username, manager, {};
    }

    /** What `Serve` says of a request in the present state. */
    ghost function Answer(req: Request): Served
      reads this, manager, manager.redis, manager.Places(), manager.Screens(), manager.Cameras()
    {
      Serve(manager.serverId, manager.redis.pins, manager.Table(), userId, username, currentRooms, req)
    }

    ghost function Now(forwarded: Option<int>): Served
      reads this, manager, manager.redis, manager.Places(), manager.Screens(), manager.Cameras()
    {
      Served(manager.Table(), manager.redis.pins, currentRooms, forwarded)
    }

    method HandleJoinRoom(code: string, stored: bool)
      requires manager.Valid()
      modifies this, manager, manager.redis, manager.Places(), manager.Screens(), manager.Cameras()
      ensures manager.Valid() && Now(None) == old(Answer(JoinRoom(code, stored)))
    {
      if code == "" { return; }
      JoinAndList(code, stored);
    }

    /** A join that succeeds also enters the handler's own list. */
    method JoinAndList(code: string, stored: bool)
      requires manager.Valid()
      modifies this, manager, manager.redis, manager.Places(), manager.Screens(), manager.Cameras()
      ensures manager.Valid()
      ensures var pins, rooms := old(manager.redis.pins), old(manager.Table());
              var joined := Join(manager.serverId, pins, rooms, code, userId, username, stored);
              && (manager.Table(), manager.redis.pins) == (joined.0, joined.1)
              && currentRooms == if joined.2 == Joined then old(currentRooms) + {code} else old(currentRooms)
    {
      var outcome := manager.JoinRoom(code, userId, username, stored);
      if outcome == Joined { List(code); }
    }

    method List(code: string)
      requires manager.Valid()
      modifies this
      ensures currentRooms == old(currentRooms) + {code}
      ensures manager.Valid() && manager.Table() == old(manager.Table())
    {
      currentRooms := currentRooms + {code};
      manager.Untouched();
    }

    method Unlist(code: string)
      requires manager.Valid()
      modifies this
      ensures currentRooms == old(currentRooms) - {code}
      ensures manager.Valid() && manager.Table() == old(manager.Table())
    {
      currentRooms := currentRooms - {code};
      manager.Untouched();
    }

    /** Stopping the user's share or, failing that, clearing their control grant,
        and then their camera. */
    method GiveUpRoom(code: string)
      requires manager.Valid() && code in manager.rooms
      modifies manager.rooms[code].screen, manager.rooms[code].camera
      ensures manager.Valid()
      ensures manager.Table() == old(manager.Table())[code := GivenUp(old(manager.Table())[code], userId)]
    {
      var room := manager.rooms[code];
      var stopped := room.screen.StopShare(userId);
      if !stopped {
        var cleared := room.screen.ClearControllerIf(userId);
      }
      var off := room.camera.StopCamera(userId);
      manager.OneChanged(code);
    }

    method HandleLeaveRoom(code: string)
      requires manager.Valid()
      modifies this, manager, manager.redis, manager.Places(), manager.Screens(), manager.Cameras()
      ensures manager.Valid() && Now(None) == old(Answer(LeaveRoom(code)))
    {
      if code == "" { return; }
      ghost var table := manager.Table();
      if code in manager.rooms {
        LeaveAfterGivingUp(manager.redis.pins, table, code, userId);
        GiveUpRoom(code);
      }
      Unlist(code);
      var remaining := manager.LeaveRoom(code, userId);
    }

    /** The part of a chat message that opens a DM room for its sender. */
    method OpenDmForChat(code: string, stored: bool)
      requires manager.Valid()
      modifies this, manager, manager.redis, manager.Places(), manager.Screens(), manager.Cameras()
      ensures manager.Valid() && Now(None) == old(Answer(Chat(code, stored)))
    {
      if IsDm(code) {
        var clients := manager.GetRoomClients(code);
        if userId !in clients {
          JoinAndList(code, stored);
        }
      }
    }

    method HandleScreenStart(code: string)
      requires manager.Valid()
      modifies manager.Places(), manager.Screens(), manager.Cameras()
      ensures manager.Valid() && Now(None) == old(Answer(ScreenStart(code)))
    {
      if code !in currentRooms || code !in manager.rooms { return; }
      var ok := manager.rooms[code].screen.StartShare(userId, username);
      manager.OneChanged(code);
    }

    method HandleScreenStop(code: string)
      requires manager.Valid()
      modifies manager.Places(), manager.Screens(), manager.Cameras()
      ensures manager.Valid() && Now(None) == old(Answer(ScreenStop(code)))
    {
      if code !in currentRooms || code !in manager.rooms { return; }
      var cleared := manager.rooms[code].screen.StopShare(userId);
      manager.OneChanged(code);
    }

    method HandleRemoteGrant(code: string, target: Option<int>, granted: bool)
      requires manager.Valid()
      modifies manager.Places(), manager.Screens(), manager.Cameras()
      ensures manager.Valid() && Now(None) == old(Answer(RemoteGrant(code, target, granted)))
    {
      if code !in currentRooms || code !in manager.rooms { return; }
      var screen := manager.rooms[code].screen;
      if screen.share.None? || screen.share.value.sharerId != userId { return; }
      if granted {
        var clients := manager.GetRoomClients(code);
        if target.None? || target.value !in clients { return; }
        var ok := screen.SetController(userId, target, Some(clients[target.value]));
      } else {
        var ok := screen.SetController(userId, None, None);
      }
      manager.OneChanged(code);
    }

    method HandleRemoteEvent(code: string) returns (forwarded: Option<int>)
      ensures Now(forwarded) == old(Answer(RemoteEvent(code)))
    {
      if code !in currentRooms || code !in manager.rooms { return None; }
      var info := manager.rooms[code].screen.share;
      if info.None? { return None; }
      if info.value.controllerId != Some(userId) { return None; }
      var clients := manager.GetRoomClients(code);
      if info.value.sharerId !in clients { return None; }
      forwarded := Some(info.value.sharerId);
    }

    method HandleCameraStart(code: string)
      requires manager.Valid()
      modifies manager.Places(), manager.Screens(), manager.Cameras()
      ensures manager.Valid() && Now(None) == old(Answer(CameraStart(code)))
    {
      if code !in currentRooms || code !in manager.rooms { return; }
      var changed := manager.rooms[code].camera.StartCamera(userId, username);
      manager.OneChanged(code);
    }

    method HandleCameraStop(code: string)
      requires manager.Valid()
      modifies manager.Places(), manager.Screens(), manager.Cameras()
      ensures manager.Valid() && Now(None) == old(Answer(CameraStop(code)))
    {
      if code !in currentRooms || code !in manager.rooms { return; }
      var changed := manager.rooms[code].camera.StopCamera(userId);
      manager.OneChanged(code);
    }

    method HandleAudioChunk(code: string)
      requires manager.Valid()
      modifies manager.Places(), manager.Screens(), manager.Cameras()
      ensures manager.Valid() && Now(None) == old(Answer(AudioChunk(code)))
    {
      if code !in currentRooms || code !in manager.rooms { return; }
      manager.rooms[code].audio := manager.rooms[code].audio + {userId};
      manager.OneChanged(code);
    }

    method Cleanup()
      requires manager.Valid()
      modifies manager, manager.redis, manager.Places(), manager.Screens(), manager.Cameras()
      ensures manager.Valid() && Now(None) == old(Answer(Goodbye))
    {
      var todo := currentRooms;
      while todo != {}
        invariant todo <= currentRooms
        invariant manager.Valid() && manager.rooms == old(manager.rooms)
        invariant manager.Table() == GiveUp(old(manager.Table()), userId, currentRooms - todo)
        invariant manager.redis.pins == old(manager.redis.pins)
        decreases todo
      {
        SomeCode(todo);
        var code :| code in todo;
        GiveUpStep(old(manager.Table()), userId, currentRooms - todo, code);
        assert currentRooms - (todo - {code}) == currentRooms - todo + {code};
        todo := todo - {code};
        if code in manager.rooms {
          GiveUpRoom(code);
        }
      }
      assert currentRooms - {} == currentRooms;
      var left := manager.RemoveClientFromAllRooms(userId);
    }
  }

  function GivenUp(d: RoomData, u: int): RoomData {
    d.(screen := Surrender(d.screen, u), cameras := d.cameras - {u})
  }

  lemma GiveUpStep(rooms: RoomTable, u: int, done: set<string>, code: string)
    requires code !in done
    ensures GiveUp(rooms, u, done + {code}) ==
      if code in rooms then GiveUp(rooms, u, done)[code := GivenUp(GiveUp(rooms, u, done)[code], u)]
      else GiveUp(rooms, u, done)
  {
  }

  /** The handler and the room manager both stop the camera; once is enough. */
  lemma LeaveAfterGivingUp(pins: Pins, rooms: RoomTable, code: string, u: int)
    requires code in rooms
    ensures Leave(pins, rooms[code := GivenUp(rooms[code], u)], code, u) ==
            Leave(pins, rooms[code := rooms[code].(screen := Surrender(rooms[code].screen, u))], code, u)
  {
    assert rooms[code].cameras - {u} - {u} == rooms[code].cameras - {u};
    var given := rooms[code].(screen := Surrender(rooms[code].screen, u));
    assert Without(GivenUp(rooms[code], u), u) == Without(given, u);
    var one, two := rooms[code := GivenUp(rooms[code], u)], rooms[code := given];
    assert Without(one[code], u) == Without(two[code], u);
    assert one - {code} == two - {code};
    assert one[code := Without(two[code], u)] == two[code := Without(two[code], u)];
  }
}

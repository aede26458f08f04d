/** One chat server over whole runs: every connected user sends requests in any
    order, with any pins in Redis, and one live session per user id. */
module Membership {
  import opened Common
  import opened Rooms

  datatype Session = Session(name: string, current: set<string>)

  datatype Node = Node(rooms: RoomTable, sessions: map<int, Session>)

  datatype Turn =
    | Connect(userId: int, name: string)
    | Ask(userId: int, req: Request, pins: Pins)

  const EMPTY_NODE := Node(map[], map[])

  /** A turn of the server; the pins it sees are whatever other servers left. */
  function Step(me: string, n: Node, t: Turn): (Node, Option<int>) {
    match t
    case Connect(u, name) =>
      if u in n.sessions then (n, None) else (n.(sessions := n.sessions[u := Session(name, {})]), None)
    case Ask(u, req, pins) =>
      if u !in n.sessions then (n, None)
      else
        var s := n.sessions[u];
        var r := Serve(me, pins, n.rooms, u, s.name, s.current, req);
        (Node(r.rooms, if req.Goodbye? then n.sessions - {u} else n.sessions[u := s.(current := r.current)]),
         r.forwarded)
  }

  function Run(me: string, turns: seq<Turn>): Node {
    if turns == [] then EMPTY_NODE else Step(me, Run(me, turns[..|turns| - 1]), turns[|turns| - 1]).0
  }

  /* ---------- consistency ---------- */

  predicate RoomConsistent(d: RoomData) {
    && d.clients != map[]
    && (d.screen.Some? ==>
          && d.screen.value.sharerId in d.clients
          && (d.screen.value.controllerId.Some? ==> d.screen.value.controllerId.value in d.clients))
    && d.cameras.Keys <= d.clients.Keys
    && d.audio <= d.clients.Keys
  }

  ghost predicate Lists(rooms: RoomTable, u: int, current: set<string>) {
    forall c :: c in current <==> c in rooms && u in rooms[c].clients
  }

  ghost predicate MembersConnected(rooms: RoomTable, sessions: map<int, Session>) {
    forall c, u :: c in rooms && u in rooms[c].clients ==> u in sessions && rooms[c].clients[u] == sessions[u].name
  }

  ghost predicate ListsAgree(rooms: RoomTable, sessions: map<int, Session>) {
    forall u :: u in sessions ==> Lists(rooms, u, sessions[u].current)
  }

  ghost predicate Consistent(n: Node) {
    && (forall c :: c in n.rooms ==> RoomConsistent(n.rooms[c]))
    && MembersConnected(n.rooms, n.sessions)
    && ListsAgree(n.rooms, n.sessions)
  }

  /** What a request of `u` may do to the rooms: keep each consistent, and move
      nobody but `u` in or out. */
  ghost predicate MovesOnly(rooms: RoomTable, rooms': RoomTable, u: int, name: string) {
    && (forall c :: c in rooms' ==> RoomConsistent(rooms'[c]))
    && (forall c, v :: v != u ==>
          ((c in rooms && v in rooms[c].clients) <==> (c in rooms' && v in rooms'[c].clients)))
    && (forall c, v :: v != u && c in rooms' && v in rooms'[c].clients ==> rooms'[c].clients[v] == rooms[c].clients[v])
    && (forall c :: c in rooms' && u in rooms'[c].clients ==> rooms'[c].clients[u] == name)
  }

  ghost predicate Sound(rooms: RoomTable, u: int, name: string, current: set<string>) {
    && (forall c :: c in rooms ==> RoomConsistent(rooms[c]))
    && (forall c :: c in rooms && u in rooms[c].clients ==> rooms[c].clients[u] == name)
    && Lists(rooms, u, current)
  }

  lemma SameMembers(rooms: RoomTable, u: int, name: string, current: set<string>, code: string, d: RoomData)
    requires Sound(rooms, u, name, current) && code in rooms
    requires d.clients == rooms[code].clients && RoomConsistent(d)
    ensures MovesOnly(rooms, rooms[code := d], u, name) && Lists(rooms[code := d], u, current)
  {
  }

  lemma JoinMovesOnly(me: string, pins: Pins, rooms: RoomTable, code: string, u: int, name: string,
                      current: set<string>, stored: bool)
    requires Sound(rooms, u, name, current)
    ensures var (rooms', pins', outcome) := Join(me, pins, rooms, code, u, name, stored);
            && MovesOnly(rooms, rooms', u, name)
            && Lists(rooms', u, if outcome == Joined then current + {code} else current)
  {
    StayPut(rooms, u, name, current);
    if code in rooms {
      var clients := rooms[code].clients[u := name];
      assert u in clients;
      AddMember(rooms, u, name, current, code, rooms[code].(clients := clients));
    } else {
      assert u in EMPTY_ROOM.(clients := map[u := name]).clients;
      AddMember(rooms, u, name, current, code, EMPTY_ROOM.(clients := map[u := name]));
    }
  }

  lemma AddMember(rooms: RoomTable, u: int, name: string, current: set<string>, code: string, d: RoomData)
    requires Sound(rooms, u, name, current) && RoomConsistent(d)
    requires d.clients == (if code in rooms then rooms[code].clients else map[])[u := name]
    ensures MovesOnly(rooms, rooms[code := d], u, name) && Lists(rooms[code := d], u, current + {code})
  {
  }

  /** A user who has surrendered share, grant and cameras leaves a room consistent. */
  lemma WithoutConsistent(d: RoomData, u: int)
    requires RoomConsistent(d)
    ensures var d' := Without(d.(screen := Surrender(d.screen, u)), u);
            d'.clients != map[] ==> RoomConsistent(d')
  {
  }

  lemma LeaveMovesOnly(pins: Pins, rooms: RoomTable, code: string, u: int, name: string, current: set<string>)
    requires Sound(rooms, u, name, current)
    ensures var given := Surrendered(rooms, code, u);
            var (rooms', pins') := Leave(pins, given, code, u);
            MovesOnly(rooms, rooms', u, name) && Lists(rooms', u, current - {code})
  {
    if code in rooms {
      WithoutConsistent(rooms[code], u);
      LastMember(rooms[code].clients, u);
    }
  }

  lemma LastMember(clients: map<int, string>, u: int)
    ensures clients - {u} == map[] ==> forall v :: v in clients ==> v == u
  {
    forall v | v in clients && v != u ensures clients - {u} != map[] {
      assert v in clients - {u};
    }
  }

  lemma GoodbyeMovesOnly(pins: Pins, rooms: RoomTable, u: int, name: string, current: set<string>)
    requires Sound(rooms, u, name, current)
    ensures var rooms' := RemoveFromAll(pins, GiveUp(rooms, u, current), u).0;
            MovesOnly(rooms, rooms', u, name) && Lists(rooms', u, {})
  {
    var rooms' := RemoveFromAll(pins, GiveUp(rooms, u, current), u).0;
    forall c ensures c in rooms' ==> RoomConsistent(rooms'[c])
      ensures c in rooms' <==> c in rooms && rooms[c].clients - {u} != map[]
      ensures c in rooms' ==> rooms'[c].clients == rooms[c].clients - {u}
    {
      if c in rooms { GoodbyeRoom(pins, rooms, u, name, current, c); }
    }
    forall c, v | v != u && c in rooms && v in rooms[c].clients ensures c in rooms' && v in rooms'[c].clients {
      LastMember(rooms[c].clients, u);
    }
  }

  /** What a disconnect leaves of one room. */
  lemma GoodbyeRoom(pins: Pins, rooms: RoomTable, u: int, name: string, current: set<string>, c: string)
    requires Sound(rooms, u, name, current) && c in rooms
    ensures var rooms' := RemoveFromAll(pins, GiveUp(rooms, u, current), u).0;
            && (c in rooms' <==> rooms[c].clients - {u} != map[])
            && (c in rooms' ==> rooms'[c].clients == rooms[c].clients - {u} && RoomConsistent(rooms'[c]))
  {
    var given := GiveUp(rooms, u, current);
    if c in current {
      WithoutConsistent(rooms[c], u);
      assert Without(given[c], u) == Without(rooms[c].(screen := Surrender(rooms[c].screen, u)), u);
    } else {
      assert u !in rooms[c].clients && given[c] == rooms[c];
      assert rooms[c].clients - {u} == rooms[c].clients;
    }
  }

  lemma ServeMovesOnly(me: string, pins: Pins, rooms: RoomTable, u: int, name: string, current: set<string>,
                       req: Request)
    requires Sound(rooms, u, name, current)
    ensures var r := Serve(me, pins, rooms, u, name, current, req);
            MovesOnly(rooms, r.rooms, u, name) && Lists(r.rooms, u, if req.Goodbye? then {} else r.current)
  {
    StayPut(rooms, u, name, current);
    match req
    case JoinRoom(code, stored) => JoinMovesOnly(me, pins, rooms, code, u, name, current, stored);
    case LeaveRoom(code) => LeaveMovesOnly(pins, rooms, code, u, name, current);
    case Chat(code, stored) => JoinMovesOnly(me, pins, rooms, code, u, name, current, stored);
    case Goodbye => GoodbyeMovesOnly(pins, rooms, u, name, current);
    case _ =>
      ServedInPlace(me, pins, rooms, u, name, current, req);
      var r := Serve(me, pins, rooms, u, name, current, req);
      if r.rooms != rooms {
        SameMembers(rooms, u, name, current, req.code, r.rooms[req.code]);
      }
  }

  lemma StayPut(rooms: RoomTable, u: int, name: string, current: set<string>)
    requires Sound(rooms, u, name, current)
    ensures MovesOnly(rooms, rooms, u, name) && Lists(rooms, u, current)
  {
  }

  /** Every other request touches one room that lists the user, and not who is in it. */
  lemma ServedInPlace(me: string, pins: Pins, rooms: RoomTable, u: int, name: string, current: set<string>,
                      req: Request)
    requires Sound(rooms, u, name, current)
    requires !req.JoinRoom? && !req.LeaveRoom? && !req.Chat? && !req.Goodbye?
    ensures var r := Serve(me, pins, rooms, u, name, current, req);
            && r.current == current
            && (r.rooms != rooms ==>
                  && req.code in rooms && req.code in r.rooms && r.rooms == rooms[req.code := r.rooms[req.code]]
                  && r.rooms[req.code].clients == rooms[req.code].clients && RoomConsistent(r.rooms[req.code]))
  {
    if req.code in current && req.code in rooms {
      assert RoomConsistent(rooms[req.code]) && u in rooms[req.code].clients;
    }
  }

  lemma AskListsAgree(rooms: RoomTable, rooms': RoomTable, sessions: map<int, Session>, u: int, name: string,
                      current: set<string>)
    requires ListsAgree(rooms, sessions) && MovesOnly(rooms, rooms', u, name) && Lists(rooms', u, current)
    ensures ListsAgree(rooms', sessions[u := Session(name, current)])
    ensures ListsAgree(rooms', sessions - {u})
  {
    forall v | v in sessions && v != u ensures Lists(rooms', v, sessions[v].current) {
      assert Lists(rooms, v, sessions[v].current);
    }
  }

  lemma AskMembers(rooms: RoomTable, rooms': RoomTable, sessions: map<int, Session>, u: int, name: string,
                   current: set<string>)
    requires MembersConnected(rooms, sessions) && MovesOnly(rooms, rooms', u, name)
    ensures MembersConnected(rooms', sessions[u := Session(name, current)])
    ensures Lists(rooms', u, {}) ==> MembersConnected(rooms', sessions - {u})
  {
  }

  lemma StepConsistent(me: string, n: Node, t: Turn)
    requires Consistent(n)
    ensures Consistent(Step(me, n, t).0)
  {
    if t.Ask? && t.userId in n.sessions {
      var u, s := t.userId, n.sessions[t.userId];
      var r := Serve(me, t.pins, n.rooms, u, s.name, s.current, t.req);
      ServeMovesOnly(me, t.pins, n.rooms, u, s.name, s.current, t.req);
      AskListsAgree(n.rooms, r.rooms, n.sessions, u, s.name, if t.req.Goodbye? then {} else r.current);
      AskMembers(n.rooms, r.rooms, n.sessions, u, s.name, r.current);
    }
  }

  /** In every run every stored room has members; each session's room list is
      exactly the rooms that list it; and the sharer, the controller, the active
      cameras and the owners of audio buffers are current members. */
  lemma {:induction false} RunsAreConsistent(me: string, turns: seq<Turn>)
    ensures Consistent(Run(me, turns))
  {
    if turns != [] {
      RunsAreConsistent(me, turns[..|turns| - 1]);
      StepConsistent(me, Run(me, turns[..|turns| - 1]), turns[|turns| - 1]);
    }
  }

  /** Two live sessions of one user id break it: when either disconnects, its
      cleanup takes the user out of every room, so the other session's room list
      stays right exactly when it is empty. */
  lemma SecondSessionExact(me: string, pins: Pins, rooms: RoomTable, u: int, name: string,
                           leaving: set<string>, other: set<string>)
    ensures Lists(Serve(me, pins, rooms, u, name, leaving, Goodbye).rooms, u, other) <==> other == {}
  {
    var rooms' := Serve(me, pins, rooms, u, name, leaving, Goodbye).rooms;
    assert forall c :: c in rooms' ==> u !in rooms'[c].clients;
  }

  /** For example with the newer session in one room that the older never joined. */
  lemma SecondSessionIsEvicted(me: string, name: string)
    ensures var rooms := map["A" := EMPTY_ROOM.(clients := map[7 := name])];
            Lists(rooms, 7, {"A"}) && !Lists(Serve(me, map[], rooms, 7, name, {}, Goodbye).rooms, 7, {"A"})
  {
    var rooms := map["A" := EMPTY_ROOM.(clients := map[7 := name])];
    SecondSessionExact(me, map[], rooms, 7, name, {}, {"A"});
    assert "A" in {"A"};
  }

  /* ---------- remote control ---------- */

  /** A room's sharer and controller. */
  function Slot(n: Node, code: string): Option<(int, Option<int>)> {
    if code in n.rooms && n.rooms[code].screen.Some?
    then Some((n.rooms[code].screen.value.sharerId, n.rooms[code].screen.value.controllerId))
    else None
  }

  /** Only the sharer's grant puts a controller in the slot. */
  lemma OnlyGrantsFillSlot(me: string, n: Node, t: Turn, code: string, host: int, controller: int)
    requires Slot(Step(me, n, t).0, code) == Some((host, Some(controller)))
    requires Slot(n, code) != Some((host, Some(controller)))
    ensures t.Ask? && t.userId == host && t.req == RemoteGrant(code, Some(controller), true)
    ensures Slot(n, code).Some? && Slot(n, code).value.0 == host
  {
    if t.Ask? && t.userId in n.sessions {
      var s := n.sessions[t.userId];
      if t.req.Goodbye? {
        GoodbyeScreens(t.pins, n.rooms, t.userId, s.current, code);
      } else {
        ServeScreens(me, t.pins, n.rooms, t.userId, s.name, s.current, t.req, code);
      }
    }
  }

  /** The share of a room that is still stored, as one of the relay's operations left it. */
  lemma ServeScreens(me: string, pins: Pins, rooms: RoomTable, u: int, name: string, current: set<string>,
                     req: Request, code: string)
    requires !req.Goodbye?
    requires code in Serve(me, pins, rooms, u, name, current, req).rooms
    ensures var after := Serve(me, pins, rooms, u, name, current, req).rooms[code].screen;
            var before := if code in rooms then rooms[code].screen else None;
            || after == before
            || after == StartShare(before, u, name).0
            || after == StopShare(before, u).0
            || after == Surrender(before, u)
            || (req.RemoteGrant? && req.code == code &&
                 ((req.granted && req.target.Some?
                     && exists m :: after == SetController(before, u, req.target, Some(m)).0)
                  || after == SetController(before, u, None, None).0))
  {
  }

  lemma GoodbyeScreens(pins: Pins, rooms: RoomTable, u: int, current: set<string>, code: string)
    ensures var rooms' := RemoveFromAll(pins, GiveUp(rooms, u, current), u).0;
            code in rooms' ==>
              code in rooms
                  && (rooms'[code].screen == rooms[code].screen
                        || rooms'[code].screen == Surrender(rooms[code].screen, u))
  {
  }

  /** A share ends only by its own sharer: stopping, leaving or disconnecting.
      Nobody takes a share over. */
  lemma ShareEndsByOwner(me: string, n: Node, t: Turn, code: string, host: int)
    requires Consistent(n) && Slot(n, code).Some? && Slot(n, code).value.0 == host
    requires var after := Slot(Step(me, n, t).0, code); after.None? || after.value.0 != host
    ensures Slot(Step(me, n, t).0, code) == None
    ensures t.Ask? && t.userId == host && (t.req == ScreenStop(code) || t.req == LeaveRoom(code) || t.req == Goodbye)
  {
    var s := n.sessions[t.userId];
    RoomStaysWith(me, t.pins, n.rooms, t.userId, s.name, s.current, t.req, code, host);
    if code in Serve(me, t.pins, n.rooms, t.userId, s.name, s.current, t.req).rooms {
      ShareStays(me, t.pins, n.rooms, t.userId, s.name, s.current, t.req, code, host);
    }
  }

  /** While the room stays stored the share stays its sharer's until the sharer ends it. */
  lemma ShareStays(me: string, pins: Pins, rooms: RoomTable, u: int, name: string, current: set<string>, req: Request,
                   code: string, host: int)
    requires code in rooms && rooms[code].screen.Some? && rooms[code].screen.value.sharerId == host
    requires code in Serve(me, pins, rooms, u, name, current, req).rooms
    ensures var after := Serve(me, pins, rooms, u, name, current, req).rooms[code].screen;
            || (after.Some? && after.value.sharerId == host)
            || (after.None? && u == host && (req == ScreenStop(code) || req == LeaveRoom(code) || req == Goodbye))
  {
    if req.Goodbye? {
      GoodbyeScreens(pins, rooms, u, current, code);
    } else {
      ServeScreens(me, pins, rooms, u, name, current, req, code);
      if Serve(me, pins, rooms, u, name, current, req).rooms[code].screen.None? {
        SharerStops(me, pins, rooms, u, name, current, req, code);
      }
    }
  }

  /** A room vanishes only when its last member leaves it or disconnects. */
  lemma RoomStaysWith(me: string, pins: Pins, rooms: RoomTable, u: int, name: string, current: set<string>,
                      req: Request, code: string, member: int)
    requires code in rooms && member in rooms[code].clients
    ensures code !in Serve(me, pins, rooms, u, name, current, req).rooms ==>
      u == member && (req == LeaveRoom(code) || req == Goodbye)
  {
    LastMember(rooms[code].clients, u);
  }

  /** Short of disconnecting, only stopping and leaving clear one's own share. */
  lemma SharerStops(me: string, pins: Pins, rooms: RoomTable, u: int, name: string, current: set<string>, req: Request,
                    code: string)
    requires code in rooms && rooms[code].screen.Some? && !req.Goodbye?
    requires code in Serve(me, pins, rooms, u, name, current, req).rooms
    requires Serve(me, pins, rooms, u, name, current, req).rooms[code].screen.None?
    ensures req == ScreenStop(code) || req == LeaveRoom(code)
  {
  }

  /** A granted slot changes only by the sharer or by the controller leaving. */
  lemma SlotYieldsOnlyToItsOwners(me: string, n: Node, t: Turn, code: string, host: int, controller: int)
    requires Consistent(n) && Slot(n, code) == Some((host, Some(controller)))
    requires Slot(Step(me, n, t).0, code) != Some((host, Some(controller)))
    ensures t.Ask? && (t.userId == host || (t.userId == controller && (t.req == LeaveRoom(code) || t.req == Goodbye)))
  {
    var after := Slot(Step(me, n, t).0, code);
    if after.None? || after.value.0 != host {
      ShareEndsByOwner(me, n, t, code, host);
    } else if t.Ask? && t.userId in n.sessions {
      var s := n.sessions[t.userId];
      if t.req.Goodbye? {
        GoodbyeScreens(t.pins, n.rooms, t.userId, s.current, code);
      } else {
        ControllerYields(me, t.pins, n.rooms, t.userId, s.name, s.current, t.req, code);
      }
    }
  }

  lemma ControllerYields(me: string, pins: Pins, rooms: RoomTable, u: int, name: string, current: set<string>,
                         req: Request, code: string)
    requires code in rooms && rooms[code].screen.Some? && !req.Goodbye?
    requires code in Serve(me, pins, rooms, u, name, current, req).rooms
    requires var d := Serve(me, pins, rooms, u, name, current, req).rooms[code];
             d.screen.Some? && d.screen != rooms[code].screen
    ensures u == rooms[code].screen.value.sharerId ||
            (rooms[code].screen.value.controllerId == Some(u) && req == LeaveRoom(code))
  {
  }

  /** Turn `i` is the grant, and the slot has not changed since. */
  ghost predicate GrantedAt(me: string, turns: seq<Turn>, i: nat, code: string, host: int, controller: int) {
    && i < |turns|
    && turns[i].Ask? && turns[i].userId == host && turns[i].req == RemoteGrant(code, Some(controller), true)
    && Slot(Run(me, turns[..i]), code).Some? && Slot(Run(me, turns[..i]), code).value.0 == host
    && Slot(Run(me, turns[..i]), code) != Some((host, Some(controller)))
    && forall j :: i < j <= |turns| ==> Slot(Run(me, turns[..j]), code) == Some((host, Some(controller)))
  }

  lemma {:induction false} SlotWasGranted(me: string, turns: seq<Turn>, code: string, host: int, controller: int)
    requires Slot(Run(me, turns), code) == Some((host, Some(controller)))
    ensures exists i :: GrantedAt(me, turns, i, code, host, controller)
  {
    if turns != [] {
      var k := |turns| - 1;
      var pre := turns[..k];
      assert turns[..|turns|] == turns;
      if Slot(Run(me, pre), code) == Some((host, Some(controller))) {
        SlotWasGranted(me, pre, code, host, controller);
        var i :| GrantedAt(me, pre, i, code, host, controller);
        assert forall j :: 0 <= j <= k ==> pre[..j] == turns[..j];
        assert GrantedAt(me, turns, i, code, host, controller);
      } else {
        OnlyGrantsFillSlot(me, Run(me, pre), turns[k], code, host, controller);
        assert GrantedAt(me, turns, k, code, host, controller);
      }
    }
  }

  /** Whenever a remote-control event of `c` is forwarded to `h`, both are members,
      `h` is the sharer, and the last turn that changed the controller slot was
      `h` granting `c`, with the share uninterrupted since. */
  lemma ForwardedOnlyUnderGrant(me: string, turns: seq<Turn>, c: int, code: string, pins: Pins, h: int)
    requires Step(me, Run(me, turns), Ask(c, RemoteEvent(code), pins)).1 == Some(h)
    ensures var n := Run(me, turns);
            && code in n.rooms && c in n.rooms[code].clients && h in n.rooms[code].clients
            && Slot(n, code) == Some((h, Some(c)))
    ensures exists i :: GrantedAt(me, turns, i, code, h, c)
  {
    RunsAreConsistent(me, turns);
    SlotWasGranted(me, turns, code, h, c);
  }

  /** And it is forwarded in exactly that situation: a connected controller of a
      live share is always obeyed. */
  lemma ControllerIsObeyed(me: string, turns: seq<Turn>, c: int, code: string, pins: Pins)
    requires c in Run(me, turns).sessions
    ensures var n := Run(me, turns);
            Step(me, n, Ask(c, RemoteEvent(code), pins)).1 ==
              match Slot(n, code)
              case Some((h, Some(k))) => if k == c then Some(h) else None
              case _ => None
  {
    var n := Run(me, turns);
    RunsAreConsistent(me, turns);
    assert Lists(n.rooms, c, n.sessions[c].current);
    if code in n.rooms { assert RoomConsistent(n.rooms[code]); }
  }

  /** Once a user is not in the slot, only a grant to that user puts them there:
      until then no event of theirs is forwarded. */
  lemma {:induction false} NoControlWithoutGrant(me: string, turns: seq<Turn>, more: seq<Turn>, code: string, c: int)
    requires !Controls(Run(me, turns), code, c)
    requires forall i :: 0 <= i < |more| && more[i].Ask? ==> more[i].req != RemoteGrant(code, Some(c), true)
    ensures !Controls(Run(me, turns + more), code, c)
    ensures forall pins :: Step(me, Run(me, turns + more), Ask(c, RemoteEvent(code), pins)).1 == None
    decreases |more|
  {
    if more == [] {
      assert turns + more == turns;
    } else {
      var pre, last := more[..|more| - 1], more[|more| - 1];
      assert forall i :: 0 <= i < |pre| ==> pre[i] == more[i];
      NoControlWithoutGrant(me, turns, pre, code, c);
      assert (turns + more)[..|turns + more| - 1] == turns + pre && (turns + more)[|turns + more| - 1] == last;
      NotGranted(me, Run(me, turns + pre), last, code, c);
    }
    forall pins ensures Step(me, Run(me, turns + more), Ask(c, RemoteEvent(code), pins)).1 == None {
      NotForwarded(me, turns + more, c, code, pins);
    }
  }

  predicate Controls(n: Node, code: string, c: int) {
    Slot(n, code).Some? && Slot(n, code).value.1 == Some(c)
  }

  lemma NotGranted(me: string, n: Node, t: Turn, code: string, c: int)
    requires !Controls(n, code, c) && (t.Ask? ==> t.req != RemoteGrant(code, Some(c), true))
    ensures !Controls(Step(me, n, t).0, code, c)
  {
    var after := Slot(Step(me, n, t).0, code);
    if after.Some? && after.value.1 == Some(c) {
      OnlyGrantsFillSlot(me, n, t, code, after.value.0, c);
    }
  }

  lemma NotForwarded(me: string, turns: seq<Turn>, c: int, code: string, pins: Pins)
    requires !Controls(Run(me, turns), code, c)
    ensures Step(me, Run(me, turns), Ask(c, RemoteEvent(code), pins)).1 == None
  {
    var forwarded := Step(me, Run(me, turns), Ask(c, RemoteEvent(code), pins)).1;
    if forwarded.Some? {
      ForwardedOnlyUnderGrant(me, turns, c, code, pins, forwarded.value);
    }
  }
}

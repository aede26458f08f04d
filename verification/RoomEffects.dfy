/** What each request of a connected user does, told by who is in which room: the
    whole new state of the server, and the pins; and what a grant or a revoke
    means for every later turn. */
module RoomEffects {
  import opened Common
  import opened Rooms
  import opened Membership

  predicate InRoom(n: Node, code: string, u: int) {
    code in n.rooms && u in n.rooms[code].clients
  }

  function After(me: string, n: Node, u: int, req: Request, pins: Pins): Node {
    Step(me, n, Ask(u, req, pins)).0
  }

  /** In a consistent server the user's own list tells membership. */
  lemma ListTells(n: Node, code: string, u: int)
    requires Consistent(n) && u in n.sessions
    ensures code in n.sessions[u].current <==> InRoom(n, code, u)
    ensures InRoom(n, code, u) ==> n.rooms[code].clients[u] == n.sessions[u].name
    ensures n.sessions[u := n.sessions[u]] == n.sessions
  {
    assert Lists(n.rooms, u, n.sessions[u].current);
  }

  /** A user who is not in a room has nothing in it. */
  lemma NothingOf(n: Node, code: string, u: int)
    requires Consistent(n) && code in n.rooms && u !in n.rooms[code].clients
    ensures var d := n.rooms[code];
            && Surrender(d.screen, u) == d.screen && d.(screen := d.screen) == d
            && Without(d, u) == d && d.clients != map[]
  {
    var d := n.rooms[code];
    assert RoomConsistent(d);
    assert d.clients - {u} == d.clients && d.cameras - {u} == d.cameras && d.audio - {u} == d.audio;
  }

  /* ---------- joining ---------- */

  /** The user is a member under the session's name, of a new and otherwise empty
      room if there was none, and nothing else changes. */
  ghost predicate Joins(n: Node, n': Node, u: int, code: string)
    requires u in n.sessions
  {
    var s := n.sessions[u];
    var d := if code in n.rooms then n.rooms[code] else RoomData(map[], None, map[], {});
    && n'.rooms == n.rooms[code := RoomData(d.clients[u := s.name], d.screen, d.cameras, d.audio)]
    && n'.sessions == n.sessions[u := Session(s.name, s.current + {code})]
  }

  /** A join succeeds exactly when no other server holds the room and it is stored
      here or could be found or created; a direct-message room has no holder. */
  lemma JoinTakesEffect(me: string, n: Node, u: int, code: string, stored: bool, pins: Pins)
    requires Consistent(n) && u in n.sessions && code != ""
    ensures var n' := After(me, n, u, JoinRoom(code, stored), pins);
            if ("DM-" <= code || code !in pins || pins[code] == me) && (code in n.rooms || stored)
            then Joins(n, n', u, code) else n' == n
  {
    ListTells(n, code, u);
  }

  /** Chatting in a direct-message room joins it, once; other chat moves nobody. */
  lemma ChatTakesEffect(me: string, n: Node, u: int, code: string, stored: bool, pins: Pins)
    requires Consistent(n) && u in n.sessions
    ensures var n' := After(me, n, u, Chat(code, stored), pins);
            if "DM-" <= code && !InRoom(n, code, u) && (code in n.rooms || stored)
            then Joins(n, n', u, code) else n' == n
  {
    ListTells(n, code, u);
  }

  /* ---------- leaving ---------- */

  /** Who is left shares and controls as before. */
  function ScreenWithout(screen: Option<Share>, u: int): (r: Option<Share>)
    ensures r.Some? ==> r.value.sharerId != u && r.value.controllerId != Some(u)
  {
    if screen.None? || screen.value.sharerId == u then None
    else if screen.value.controllerId != Some(u) then screen
    else Some(Share(screen.value.sharerId, screen.value.sharerName, None, None))
  }

  predicate SameRoom(n: Node, n': Node, code: string) {
    (code in n'.rooms <==> code in n.rooms) && (code in n.rooms ==> n'.rooms[code] == n.rooms[code])
  }

  /** The user's membership, share or grant, camera and audio buffer are gone, and
      so is the room of a last member; a room the user is not in stays as it was. */
  ghost predicate LeftRoom(n: Node, n': Node, code: string, u: int) {
    if !InRoom(n, code, u) then SameRoom(n, n', code)
    else
      var d := n.rooms[code];
      if d.clients.Keys == {u} then code !in n'.rooms
      else
        && code in n'.rooms
        && n'.rooms[code] == RoomData(d.clients - {u}, ScreenWithout(d.screen, u), d.cameras - {u}, d.audio - {u})
  }

  lemma LeaveTakesEffect(me: string, n: Node, u: int, code: string, pins: Pins)
    requires Consistent(n) && u in n.sessions && code != ""
    ensures var n', s := After(me, n, u, LeaveRoom(code), pins), n.sessions[u];
            && LeftRoom(n, n', code, u)
            && n'.rooms - {code} == n.rooms - {code}
            && n'.sessions == n.sessions[u := Session(s.name, s.current - {code})]
  {
    ListTells(n, code, u);
    LeavingEmpties(pins, n, code, u);
  }

  lemma LeavingEmpties(pins: Pins, n: Node, code: string, u: int)
    requires Consistent(n)
    ensures var rooms' := Leave(pins, Surrendered(n.rooms, code, u), code, u).0;
            LeftRoom(n, n.(rooms := rooms'), code, u) && rooms' - {code} == n.rooms - {code}
  {
    if InRoom(n, code, u) {
      OnlyMember(n.rooms[code].clients, u);
      assert Without(Surrendered(n.rooms, code, u)[code], u).screen == ScreenWithout(n.rooms[code].screen, u);
    } else if code in n.rooms {
      NothingOf(n, code, u);
      assert Surrendered(n.rooms, code, u) == n.rooms;
    }
  }

  lemma OnlyMember(clients: map<int, string>, u: int)
    requires u in clients
    ensures clients - {u} == map[] <==> clients.Keys == {u}
  {
    LastMember(clients, u);
    if clients - {u} == map[] {
      assert forall v :: v in clients.Keys <==> v in {u};
    } else {
      SomeOther(clients, u);
    }
  }

  lemma SomeOther(clients: map<int, string>, u: int)
    requires clients - {u} != map[]
    ensures clients.Keys != {u}
  {
    if forall v :: v in clients ==> v in {u} {
      assert forall v :: v !in clients - {u};
    }
  }

  /** A disconnect ends the session and leaves every room at once. */
  lemma GoodbyeTakesEffect(me: string, n: Node, u: int, pins: Pins)
    requires Consistent(n) && u in n.sessions
    ensures After(me, n, u, Goodbye, pins).sessions == n.sessions - {u}
    ensures forall code :: LeftRoom(n, After(me, n, u, Goodbye, pins), code, u)
  {
    forall code ensures LeftRoom(n, After(me, n, u, Goodbye, pins), code, u) {
      ListTells(n, code, u);
      if InRoom(n, code, u) {
        OnlyMember(n.rooms[code].clients, u);
      }
    }
  }

  /* ---------- within a room ---------- */

  /** Room `code` becomes `d`, and nothing else changes. */
  ghost predicate Becomes(n: Node, n': Node, code: string, d: RoomData) {
    n'.rooms == n.rooms[code := d] && n'.sessions == n.sessions
  }

  /** Nobody acts on a room from outside it. */
  lemma OutsidersChangeNothing(me: string, n: Node, u: int, req: Request, pins: Pins)
    requires Consistent(n) && u in n.sessions
    requires !req.JoinRoom? && !req.Chat? && !req.Goodbye? && !InRoom(n, req.code, u)
    ensures Step(me, n, Ask(u, req, pins)) == (n, None)
  {
    ListTells(n, req.code, u);
    if req.LeaveRoom? {
      assert n.sessions[u].current - {req.code} == n.sessions[u].current;
      if req.code in n.rooms {
        NothingOf(n, req.code, u);
        assert n.rooms[req.code := n.rooms[req.code]] == n.rooms;
      }
    }
  }

  /** A free room is shared by the asker, with no controller; a taken one stays taken. */
  lemma ScreenStartTakesEffect(me: string, n: Node, u: int, code: string, pins: Pins)
    requires Consistent(n) && u in n.sessions && InRoom(n, code, u)
    ensures var n', d := After(me, n, u, ScreenStart(code), pins), n.rooms[code];
            if d.screen.None?
            then Becomes(n, n', code, d.(screen := Some(Share(u, n.sessions[u].name, None, None))))
            else n' == n
  {
    ListTells(n, code, u);
  }

  /** The sharer's stop ends the share; anybody else's changes nothing. */
  lemma ScreenStopTakesEffect(me: string, n: Node, u: int, code: string, pins: Pins)
    requires Consistent(n) && u in n.sessions && InRoom(n, code, u)
    ensures var n', d := After(me, n, u, ScreenStop(code), pins), n.rooms[code];
            if d.screen.Some? && d.screen.value.sharerId == u then Becomes(n, n', code, d.(screen := None)) else n' == n
  {
    ListTells(n, code, u);
  }

  /** The sharer's grant to a member puts that member in the slot, under the
      member's own name; a grant by another, or to nobody here, changes nothing. */
  lemma GrantTakesEffect(me: string, n: Node, u: int, code: string, target: Option<int>, pins: Pins)
    requires Consistent(n) && u in n.sessions && InRoom(n, code, u)
    ensures var n', d := After(me, n, u, RemoteGrant(code, target, true), pins), n.rooms[code];
            if d.screen.Some? && d.screen.value.sharerId == u && target.Some? && InRoom(n, code, target.value)
            then Becomes(n, n', code, d.(screen := Some(
              Share(u, d.screen.value.sharerName, target, Some(n.sessions[target.value].name)))))
            else n' == n
  {
    ListTells(n, code, u);
  }

  /** The sharer's revoke empties the slot, whomever it names; nobody else's does. */
  lemma RevokeTakesEffect(me: string, n: Node, u: int, code: string, target: Option<int>, pins: Pins)
    requires Consistent(n) && u in n.sessions && InRoom(n, code, u)
    ensures var n', d := After(me, n, u, RemoteGrant(code, target, false), pins), n.rooms[code];
            if d.screen.Some? && d.screen.value.sharerId == u
            then Becomes(n, n', code, d.(screen := Some(Share(u, d.screen.value.sharerName, None, None))))
            else n' == n
  {
    ListTells(n, code, u);
  }

  /** A control event changes no state. */
  lemma EventChangesNothing(me: string, n: Node, u: int, code: string, pins: Pins)
    requires Consistent(n) && u in n.sessions
    ensures After(me, n, u, RemoteEvent(code), pins) == n
  {
    ListTells(n, code, u);
  }

  /** Camera and audio: the member is on, off, or has a buffer. */
  lemma MediaTakesEffect(me: string, n: Node, u: int, code: string, pins: Pins)
    requires Consistent(n) && u in n.sessions && InRoom(n, code, u)
    ensures var d, name := n.rooms[code], n.sessions[u].name;
            && Becomes(n, After(me, n, u, CameraStart(code), pins), code, d.(cameras := d.cameras[u := name]))
            && Becomes(n, After(me, n, u, CameraStop(code), pins), code, d.(cameras := d.cameras - {u}))
            && Becomes(n, After(me, n, u, AudioChunk(code), pins), code, d.(audio := d.audio + {u}))
  {
    ListTells(n, code, u);
  }

  /* ---------- pins ---------- */

  /** The pins follow the regular rooms this server opens and closes, and no others:
      a room that appears is pinned here and one that vanishes is unpinned. */
  lemma PinsFollowRooms(me: string, n: Node, u: int, req: Request, pins: Pins, code: string)
    requires u in n.sessions
    ensures var r := Serve(me, pins, n.rooms, u, n.sessions[u].name, n.sessions[u].current, req);
            var opens := !("DM-" <= code) && code !in n.rooms && code in r.rooms;
            var closes := !("DM-" <= code) && code in n.rooms && code !in r.rooms;
            && (code in r.pins <==> opens || (code in pins && !closes))
            && (code in r.pins ==> r.pins[code] == if opens then me else pins[code])
  {
    match req
    case LeaveRoom(c) => LeavePins(pins, Surrendered(n.rooms, c, u), c, u, code);
    case Goodbye => GoodbyePins(pins, GiveUp(n.rooms, u, n.sessions[u].current), u, code);
    case JoinRoom(_, _) =>
    case Chat(_, _) =>
    case _ => InPlacePins(me, pins, n.rooms, u, n.sessions[u].name, n.sessions[u].current, req);
  }

  lemma InPlacePins(me: string, pins: Pins, rooms: RoomTable, u: int, name: string, current: set<string>, req: Request)
    requires !req.JoinRoom? && !req.LeaveRoom? && !req.Chat? && !req.Goodbye?
    ensures var r := Serve(me, pins, rooms, u, name, current, req);
            r.pins == pins && r.rooms.Keys == rooms.Keys
  {
    if req.code in rooms { assert rooms.Keys + {req.code} == rooms.Keys; }
  }

  lemma GoodbyePins(pins: Pins, rooms: RoomTable, u: int, code: string)
    ensures var (rooms', pins') := RemoveFromAll(pins, rooms, u);
            var closes := !("DM-" <= code) && code in rooms && code !in rooms';
            && (code in pins' <==> code in pins && !closes) && (code in pins' ==> pins'[code] == pins[code])
            && (code in rooms' ==> code in rooms)
  {
  }

  lemma LeavePins(pins: Pins, rooms: RoomTable, left: string, u: int, code: string)
    ensures var (rooms', pins') := Leave(pins, rooms, left, u);
            var closes := !("DM-" <= code) && code in rooms && code !in rooms';
            && (code in pins' <==> code in pins && !closes) && (code in pins' ==> pins'[code] == pins[code])
            && (code in rooms' ==> code in rooms)
  {
  }

  /** A join is redirected exactly to the other server a regular room is pinned to,
      and otherwise fails exactly when the room could not be had. */
  lemma JoinAnswers(me: string, pins: Pins, rooms: RoomTable, code: string, u: int, name: string, stored: bool)
    ensures var outcome := Join(me, pins, rooms, code, u, name, stored).2;
            var elsewhere := !("DM-" <= code) && code in pins && pins[code] != me;
            && (elsewhere ==> outcome == Redirected(pins[code]))
            && (!elsewhere ==> outcome == if code in rooms || stored then Joined else Failed)
  {
  }

  /* ---------- grants and revokes over whole runs ---------- */

  /** After the sharer's revoke the slot is empty, and no event of anybody is
      forwarded until the next grant to that user. */
  lemma RevokedUntilGranted(me: string, turns: seq<Turn>, code: string, h: int, held: Option<int>, target: Option<int>,
                            pins: Pins, c: int, more: seq<Turn>, pins': Pins)
    requires Slot(Run(me, turns), code) == Some((h, held))
    requires forall i :: 0 <= i < |more| && more[i].Ask? ==> more[i].req != RemoteGrant(code, Some(c), true)
    ensures var revoked := turns + [Ask(h, RemoteGrant(code, target, false), pins)];
            && Slot(Run(me, revoked), code) == Some((h, None))
            && Step(me, Run(me, revoked + more), Ask(c, RemoteEvent(code), pins')).1 == None
  {
    var n, t := Run(me, turns), Ask(h, RemoteGrant(code, target, false), pins);
    SharerIsHere(me, turns, code);
    RevokeTakesEffect(me, n, h, code, target, pins);
    assert (turns + [t])[..|turns|] == turns;
    NoControlWithoutGrant(me, turns + [t], more, code, c);
  }

  /** After the sharer's grant to a member every event of that member reaches the
      sharer, until the sharer acts again or the member leaves. */
  lemma ObeyedUntilRevoked(me: string, turns: seq<Turn>, code: string, h: int, held: Option<int>, k: int,
                           pins: Pins, more: seq<Turn>, pins': Pins)
    requires Slot(Run(me, turns), code) == Some((h, held)) && InRoom(Run(me, turns), code, k)
    requires forall i :: 0 <= i < |more| && more[i].Ask? ==>
      more[i].userId != h && (more[i].userId == k ==> more[i].req != LeaveRoom(code) && more[i].req != Goodbye)
    ensures var granted := turns + [Ask(h, RemoteGrant(code, Some(k), true), pins)];
            && Slot(Run(me, granted), code) == Some((h, Some(k)))
            && Step(me, Run(me, granted + more), Ask(k, RemoteEvent(code), pins')).1 == Some(h)
  {
    var n, t := Run(me, turns), Ask(h, RemoteGrant(code, Some(k), true), pins);
    SharerIsHere(me, turns, code);
    GrantTakesEffect(me, n, h, code, Some(k), pins);
    assert (turns + [t])[..|turns|] == turns;
    GrantLasts(me, turns + [t], more, code, h, k);
    RunsAreConsistent(me, turns + [t] + more);
    ControllerIsObeyed(me, turns + [t] + more, k, code, pins');
  }

  lemma SharerIsHere(me: string, turns: seq<Turn>, code: string)
    requires Slot(Run(me, turns), code).Some?
    ensures var n := Run(me, turns);
            var h := Slot(n, code).value.0;
            Consistent(n) && InRoom(n, code, h) && h in n.sessions
  {
    RunsAreConsistent(me, turns);
    assert RoomConsistent(Run(me, turns).rooms[code]);
  }

  lemma {:induction false} GrantLasts(me: string, turns: seq<Turn>, more: seq<Turn>, code: string, h: int, k: int)
    requires Slot(Run(me, turns), code) == Some((h, Some(k)))
    requires forall i :: 0 <= i < |more| && more[i].Ask? ==>
      more[i].userId != h && (more[i].userId == k ==> more[i].req != LeaveRoom(code) && more[i].req != Goodbye)
    ensures Slot(Run(me, turns + more), code) == Some((h, Some(k)))
    decreases |more|
  {
    if more == [] {
      assert turns + more == turns;
    } else {
      var pre, last := more[..|more| - 1], more[|more| - 1];
      assert forall i :: 0 <= i < |pre| ==> pre[i] == more[i];
      GrantLasts(me, turns, pre, code, h, k);
      assert (turns + more)[..|turns + more| - 1] == turns + pre && (turns + more)[|turns + more| - 1] == last;
      RunsAreConsistent(me, turns + pre);
      if Slot(Step(me, Run(me, turns + pre), last).0, code) != Some((h, Some(k))) {
        SlotYieldsOnlyToItsOwners(me, Run(me, turns + pre), last, code, h, k);
      }
    }
  }

  /** A user who connects starts in no room; a connected one stays as they are. */
  lemma ConnectTakesEffect(me: string, n: Node, u: int, name: string)
    ensures var n' := Step(me, n, Connect(u, name)).0;
            && n'.rooms == n.rooms
            && n'.sessions == if u in n.sessions then n.sessions else n.sessions[u := Session(name, {})]
  {
  }
}

/** Room hosting across chat servers, Redis pins and the load balancer: one
    transition system whose steps are atomic handlers. Servers fail by stopping;
    Redis answers every call. */
module Hosting {
  import opened Common
  import opened Rooms
  import opened Membership
  import opened LoadBalancer

  datatype Cluster = Cluster(nodes: map<string, Node>, pins: Pins, servers: seq<ServerInfo>)

  datatype Action =
    | Resolve(code: Option<string>)
    | Connect(server: string, userId: int, name: string)
    | Ask(server: string, userId: int, req: Request)
    | Crash(server: string)
    | Restart(server: string)
    | Probe(index: int, reply: Option<(int, int)>)

  /** `nodes` holds the running servers; a crash forgets a server's rooms and
      sessions but not its pins. */
  function Step(c: Cluster, a: Action): Cluster {
    match a
    case Resolve(code) => c.(pins := Route(c.servers, c.pins, code).1)
    case Connect(s, u, name) =>
      if s in c.nodes
      then c.(nodes := c.nodes[s := Membership.Step(s, c.nodes[s], Membership.Connect(u, name)).0])
      else c
    case Ask(s, u, req) =>
      if s in c.nodes && u in c.nodes[s].sessions then
        var session := c.nodes[s].sessions[u];
        var served := Serve(s, c.pins, c.nodes[s].rooms, u, session.name, session.current, req);
        c.(nodes := c.nodes[s := Membership.Step(s, c.nodes[s], Membership.Ask(u, req, c.pins)).0], pins := served.pins)
      else c
    case Crash(s) => c.(nodes := c.nodes - {s})
    case Restart(s) => if s in c.nodes then c else c.(nodes := c.nodes[s := EMPTY_NODE])
    case Probe(i, reply) =>
      if 0 <= i < |c.servers| then
        c.(servers := c.servers[i :=
          match reply
          case None => c.servers[i].(isUp := false)
          case Some((connections, cpu)) => c.servers[i].(connections := connections, cpu := cpu, isUp := true)])
      else c
  }

  function Run(c: Cluster, actions: seq<Action>): Cluster {
    if actions == [] then c else Step(Run(c, actions[..|actions| - 1]), actions[|actions| - 1])
  }

  /** A restarted server is empty and a crashed one gone, whatever is pinned; a
      session starts on its server; a probe's answer is what routing goes by. */
  lemma ActionsTakeEffect(c: Cluster, s: string, u: int, name: string, i: nat, load: (int, int))
    requires i < |c.servers|
    ensures Step(c, Crash(s)) == c.(nodes := c.nodes - {s})
    ensures s !in c.nodes ==> Step(c, Restart(s)) == c.(nodes := c.nodes[s := Node(map[], map[])])
    ensures s in c.nodes && u !in c.nodes[s].sessions ==>
      var n := Node(c.nodes[s].rooms, c.nodes[s].sessions[u := Session(name, {})]);
      Step(c, Action.Connect(s, u, name)) == c.(nodes := c.nodes[s := n])
    ensures Step(c, Probe(i, None)) == c.(servers := c.servers[i := c.servers[i].(isUp := false)])
    ensures Step(c, Probe(i, Some(load))) ==
      c.(servers := c.servers[i := ServerInfo(c.servers[i].id, load.0, load.1, true)])
  {
  }

  predicate Hosts(c: Cluster, s: string, code: string) {
    s in c.nodes && code in c.nodes[s].rooms && !IsDm(code)
  }

  /** Whoever hosts a regular room is its pin, and no DM room is pinned. */
  ghost predicate PinsHold(c: Cluster) {
    && (forall s, code :: Hosts(c, s, code) ==> code in c.pins && c.pins[code] == s)
    && (forall code :: code in c.pins ==> !IsDm(code))
  }

  /** A server the load balancer counts as down hosts no regular room. */
  ghost predicate HealthHonest(c: Cluster) {
    forall s, code :: Hosts(c, s, code) ==> IsUp(c.servers, s)
  }

  ghost predicate HonestThroughout(c: Cluster, actions: seq<Action>) {
    forall i :: 0 <= i < |actions| ==> HealthHonest(Run(c, actions[..i]))
  }

  /* ---------- the router ---------- */

  lemma {:induction false} FindUp(servers: seq<ServerInfo>, at: int)
    requires DistinctIds(servers) && 0 <= at < |servers|
    ensures Find(servers, servers[at].id) == Some(servers[at])
  {
    if at > 0 {
      assert servers[0].id != servers[at].id;
      assert servers[1..][at - 1] == servers[at];
      FindUp(servers[1..], at - 1);
    }
  }

  /** Routing a room breaks the pins exactly when the room's host is counted as
      down while some other server is up. */
  lemma ResolveExact(c: Cluster, code: Option<string>)
    requires PinsHold(c) && DistinctIds(c.servers)
    ensures PinsHold(Step(c, Resolve(code))) <==>
      !(code.Some? && code.value != "" && LeastLoaded(c.servers).Some?
        && exists s :: Hosts(c, s, code.value) && !IsUp(c.servers, s))
  {
    var c' := Step(c, Resolve(code));
    var at := LeastLoadedIs(c.servers);
    if LeastLoaded(c.servers).Some? {
      FindUp(c.servers, at);
    }
    assert forall s, k :: Hosts(c', s, k) <==> Hosts(c, s, k);
    if code.Some? && code.value != "" && LeastLoaded(c.servers).Some? {
      if s :| Hosts(c, s, code.value) && !IsUp(c.servers, s) {
        assert c.pins[code.value] == s;
        assert Hosts(c', s, code.value) && c'.pins[code.value] != s;
      }
    }
  }

  /* ---------- requests ---------- */

  ghost predicate NodePins(me: string, rooms: RoomTable, pins: Pins) {
    && (forall code :: code in rooms && !IsDm(code) ==> code in pins && pins[code] == me)
    && (forall code :: code in pins ==> !IsDm(code))
  }

  /** A request of one server keeps its own pins right and leaves every pin of
      another server alone. */
  lemma ServePins(me: string, pins: Pins, rooms: RoomTable, u: int, name: string, current: set<string>, req: Request)
    requires NodePins(me, rooms, pins)
    ensures var r := Serve(me, pins, rooms, u, name, current, req);
            && NodePins(me, r.rooms, r.pins)
            && OthersPinned(me, pins, r.pins)
  {
    match req
    case JoinRoom(code, stored) => JoinPins(me, pins, rooms, code, u, name, stored);
    case Chat(code, stored) => JoinPins(me, pins, rooms, code, u, name, stored);
    case LeaveRoom(code) => LeavePins(me, pins, rooms, code, u);
    case Goodbye => GoodbyePins(me, pins, rooms, u, current);
    case _ =>
  }

  /** The pins of other servers stay as they are. */
  ghost predicate OthersPinned(me: string, pins: Pins, pins': Pins) {
    forall code :: code in pins && pins[code] != me ==> code in pins' && pins'[code] == pins[code]
  }

  lemma JoinPins(me: string, pins: Pins, rooms: RoomTable, code: string, u: int, name: string, stored: bool)
    requires NodePins(me, rooms, pins)
    ensures var (rooms', pins', outcome) := Join(me, pins, rooms, code, u, name, stored);
            NodePins(me, rooms', pins') && OthersPinned(me, pins, pins')
  {
  }

  lemma LeavePins(me: string, pins: Pins, rooms: RoomTable, code: string, u: int)
    requires NodePins(me, rooms, pins)
    ensures var given := Surrendered(rooms, code, u);
            var (rooms', pins') := Leave(pins, given, code, u);
            NodePins(me, rooms', pins') && OthersPinned(me, pins, pins')
  {
  }

  lemma GoodbyePins(me: string, pins: Pins, rooms: RoomTable, u: int, current: set<string>)
    requires NodePins(me, rooms, pins)
    ensures var (rooms', pins') := RemoveFromAll(pins, GiveUp(rooms, u, current), u);
            NodePins(me, rooms', pins') && OthersPinned(me, pins, pins')
  {
  }

  lemma StepHolds(c: Cluster, a: Action)
    requires PinsHold(c) && HealthHonest(c) && DistinctIds(c.servers)
    ensures PinsHold(Step(c, a)) && DistinctIds(Step(c, a).servers)
  {
    var c' := Step(c, a);
    match a
    case Resolve(code) => ResolveExact(c, code);
    case Ask(s, u, req) =>
      if s in c.nodes && u in c.nodes[s].sessions {
        var session := c.nodes[s].sessions[u];
        assert NodePins(s, c.nodes[s].rooms, c.pins) by {
          forall code | code in c.nodes[s].rooms && !IsDm(code) ensures code in c.pins && c.pins[code] == s {
            assert Hosts(c, s, code);
          }
        }
        ServePins(s, c.pins, c.nodes[s].rooms, u, session.name, session.current, req);
        forall t, code | Hosts(c', t, code) ensures code in c'.pins && c'.pins[code] == t {
          if t != s { assert Hosts(c, t, code); }
        }
      }
    case Connect(s, u, name) =>
      assert forall t, code :: Hosts(c', t, code) ==> Hosts(c, t, code);
    case _ =>
      assert forall t, code :: Hosts(c', t, code) ==> Hosts(c, t, code);
  }

  /** In every run in which a server counted as down never hosts a room, each
      hosted room is pinned to its host and no DM room is pinned. */
  lemma {:induction false} PinsAlwaysHold(c: Cluster, actions: seq<Action>)
    requires c.nodes == map[] && (forall code :: code in c.pins ==> !IsDm(code)) && DistinctIds(c.servers)
    requires HonestThroughout(c, actions)
    ensures PinsHold(Run(c, actions)) && DistinctIds(Run(c, actions).servers)
  {
    if actions != [] {
      var pre := actions[..|actions| - 1];
      assert forall i :: 0 <= i < |pre| ==> pre[..i] == actions[..i];
      PinsAlwaysHold(c, pre);
      StepHolds(Run(c, pre), actions[|actions| - 1]);
    }
  }

  /** So at most one server hosts a room, the load balancer sends everyone to it,
      and a join anywhere else is redirected to it. */
  lemma SingleHost(c: Cluster, actions: seq<Action>, s: string, t: string, code: string, u: int, name: string,
                   stored: bool)
    requires c.nodes == map[] && (forall code :: code in c.pins ==> !IsDm(code)) && DistinctIds(c.servers)
    requires HonestThroughout(c, actions) && HealthHonest(Run(c, actions))
    requires Hosts(Run(c, actions), s, code)
    ensures var r := Run(c, actions);
            && (Hosts(r, t, code) ==> t == s)
            && (t != s && t in r.nodes ==> Join(t, r.pins, r.nodes[t].rooms, code, u, name, stored).2 == Redirected(s))
            && Join(s, r.pins, r.nodes[s].rooms, code, u, name, stored).2 == Joined
            && (code != "" ==> Route(r.servers, r.pins, Some(code)) == (Find(r.servers, s), r.pins)
                               && Find(r.servers, s).Some?)
  {
    PinsAlwaysHold(c, actions);
  }

  /** Without the honest-health condition it fails everywhere: if a live host is
      counted as down, routing its room once and joining where one is sent gives
      the room a second host. */
  lemma LyingHealthSplitsRoom(c: Cluster, s: string, t: ServerInfo, code: string, u: int)
    requires PinsHold(c) && DistinctIds(c.servers) && code != ""
    requires Hosts(c, s, code) && !IsUp(c.servers, s)
    requires LeastLoaded(c.servers) == Some(t) && t.id in c.nodes && u in c.nodes[t.id].sessions
    ensures var r := Run(c, [Resolve(Some(code)), Action.Ask(t.id, u, JoinRoom(code, true))]);
            t.id != s && Hosts(r, s, code) && Hosts(r, t.id, code)
  {
    var at := LeastLoadedIs(c.servers);
    FindUp(c.servers, at);
    var actions := [Resolve(Some(code)), Action.Ask(t.id, u, JoinRoom(code, true))];
    assert actions[..1][..0] == [] && actions[..1] == [Resolve(Some(code))];
    var routed := Step(c, Resolve(Some(code)));
    assert Run(c, actions[..1]) == routed;
    assert routed.pins[code] == t.id;
  }

  /** Through routing, crashes and restarts every running server stays consistent. */
  lemma {:induction false} NodesStayConsistent(c: Cluster, actions: seq<Action>)
    requires c.nodes == map[]
    ensures forall s :: s in Run(c, actions).nodes ==> Consistent(Run(c, actions).nodes[s])
  {
    if actions != [] {
      var before, a := Run(c, actions[..|actions| - 1]), actions[|actions| - 1];
      NodesStayConsistent(c, actions[..|actions| - 1]);
      if (a.Connect? || a.Ask?) && a.server in before.nodes {
        StepConsistent(a.server, before.nodes[a.server],
          if a.Connect? then Membership.Connect(a.userId, a.name) else Membership.Ask(a.userId, a.req, before.pins));
      }
    }
  }
}

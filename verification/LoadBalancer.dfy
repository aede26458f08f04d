/** The load balancer: its view of the chat servers' health and the routing of
    a client to a server. */
module LoadBalancer {
  import opened Common
  import opened Rooms
  import RoomServer

  datatype ServerInfo = ServerInfo(id: string, connections: int, cpu: int, isUp: bool)

  predicate Lighter(a: ServerInfo, b: ServerInfo) {
    a.connections < b.connections || (a.connections == b.connections && a.cpu < b.cpu)
  }

  /** The first of the servers that are up in the stable order by connections,
      then cpu load. */
  function LeastLoaded(servers: seq<ServerInfo>): Option<ServerInfo> {
    if servers == [] then None
    else
      var best := LeastLoaded(servers[..|servers| - 1]);
      var last := servers[|servers| - 1];
      if !last.isUp then best
      else if best.Some? && !Lighter(last, best.value) then best
      else Some(last)
  }

  /** None exactly when no server is up; otherwise an up server that no up
      server beats and that comes before all its equals. */
  lemma {:induction false} LeastLoadedIs(servers: seq<ServerInfo>) returns (at: int)
    ensures LeastLoaded(servers).None? <==> forall i :: 0 <= i < |servers| ==> !servers[i].isUp
    ensures LeastLoaded(servers).Some? ==>
      && 0 <= at < |servers| && servers[at].isUp && LeastLoaded(servers) == Some(servers[at])
      && (forall i :: 0 <= i < |servers| && servers[i].isUp ==>
            || servers[at].connections < servers[i].connections
            || (servers[at].connections == servers[i].connections && servers[at].cpu <= servers[i].cpu))
      && (forall i :: 0 <= i < at && servers[i].isUp ==>
            servers[at].connections != servers[i].connections || servers[at].cpu != servers[i].cpu)
  {
    at := -1;
    if servers != [] {
      var k := |servers| - 1;
      var before := LeastLoadedIs(servers[..k]);
      at := if LeastLoaded(servers) == LeastLoaded(servers[..k]) && before >= 0 && before < k then before else k;
    }
  }

  function Find(servers: seq<ServerInfo>, id: string): Option<ServerInfo> {
    if servers == [] then None
    else if servers[0].id == id then Some(servers[0])
    else Find(servers[1..], id)
  }

  predicate IsUp(servers: seq<ServerInfo>, id: string) {
    Find(servers, id).Some? && Find(servers, id).value.isUp
  }

  predicate DistinctIds(servers: seq<ServerInfo>) {
    forall i, j :: 0 <= i < j < |servers| ==> servers[i].id != servers[j].id
  }

  predicate Regular(code: Option<string>) {
    code.Some? && code.value != "" && !IsDm(code.value)
  }

  /** The pin still leads to a server that is marked up. */
  predicate Routed(servers: seq<ServerInfo>, pins: Pins, code: Option<string>) {
    Regular(code) && code.value in pins && IsUp(servers, pins[code.value])
  }

  function Route(servers: seq<ServerInfo>, pins: Pins, code: Option<string>): (Option<ServerInfo>, Pins) {
    if Routed(servers, pins, code) then (Find(servers, pins[code.value]), pins)
    else
      var target := LeastLoaded(servers);
      (target, if target.Some? && Regular(code) then pins[code.value := target.value.id] else pins)
  }

  /** Where a client is sent, and what is pinned: a regular room's pin is followed
      while its server is up; otherwise the least loaded server is chosen, and a
      regular room is pinned to it. */
  lemma RouteIs(servers: seq<ServerInfo>, pins: Pins, code: Option<string>)
    ensures var (target, pins') := Route(servers, pins, code);
            if code.Some? && code.value != "" && !("DM-" <= code.value) then
              var pinned := if code.value in pins then Find(servers, pins[code.value]) else None;
              if pinned.Some? && pinned.value.isUp
              then target == pinned && pins' == pins
              else target == LeastLoaded(servers)
                   && pins' == if target.None? then pins else pins[code.value := target.value.id]
            else target == LeastLoaded(servers) && pins' == pins
  {
  }

  class HealthChecker {
    var servers: seq<ServerInfo>

    constructor (ids: seq<string>)
      ensures servers == seq(|ids|, i requires 0 <= i < |ids| => ServerInfo(ids[i], 0, 0, false))
    {
      servers := seq(|ids|, i requires 0 <= i < |ids| => ServerInfo(ids[i], 0, 0, false));
    }

    /** A reply marks a server up with the load it reports; silence marks it down. */
    method CheckOne(i: int, reply: Option<(int, int)>)
      requires 0 <= i < |servers|
      modifies this
      ensures servers == old(servers)[i :=
        match reply
        case None => old(servers)[i].(isUp := false)
        case Some((connections, cpu)) => old(servers)[i].(connections := connections, cpu := cpu, isUp := true)]
    {
      match reply
      case None =>
        servers := servers[i := servers[i].(isUp := false)];
      case Some((connections, cpu)) =>
        servers := servers[i := servers[i].(connections := connections, cpu := cpu, isUp := true)];
    }
  }

  class Router {
    const hc: HealthChecker
    const redis: RoomServer.Redis

    constructor (hc: HealthChecker, redis: RoomServer.Redis)
      ensures this.hc == hc && this.redis == redis
    {
      this.hc, this.redis := hc, redis;
    }

    method Resolve(code: Option<string>) returns (target: Option<ServerInfo>)
      modifies redis
      ensures (target, redis.pins) == Route(hc.servers, old(redis.pins), code)
    {
      var named := code.Some? && code.value != "";
      var dm := named && IsDm(code.value);
      if named && !dm {
        if code.value in redis.pins {
          var info := Find(hc.servers, redis.pins[code.value]);
          if info.Some? && info.value.isUp {
            return info;
          }
        }
      }
      target := LeastLoaded(hc.servers);
      if target.Some? && named && !dm {
        redis.pins := redis.pins[code.value := target.value.id];
      }
    }
  }
}

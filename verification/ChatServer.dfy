/** The chat server's registry of connected clients and its two message paths:
    the push of a direct message to its recipient and the handling of a copy
    from the Redis channel. */
module ChatServer {
  import opened Common
  import DmCode
  import D = DmDelivery

  /** A connected client; two sessions of one user differ in `session`. */
  datatype Handler = Handler(session: nat, userId: int, username: string)

  function Names(clients: map<int, Handler>): set<string> {
    set u | u in clients :: clients[u].username
  }

  lemma NamesHas(clients: map<int, Handler>, name: string)
    ensures name in Names(clients) <==> exists u :: u in clients && clients[u].username == name
  {
  }

  /** The first client found under a name; the order of the registry is not fixed. */
  method FindByName(clients: map<int, Handler>, name: string) returns (found: Option<Handler>)
    ensures found.Some? <==> name in Names(clients)
    ensures found.Some? ==> found.value.username == name
    ensures found.Some? ==> exists u :: u in clients && clients[u] == found.value
  {
    var todo := clients.Keys;
    NamesHas(clients, name);
    while todo != {}
      invariant todo <= clients.Keys
      invariant forall u :: u in clients && u !in todo ==> clients[u].username != name
      decreases todo
    {
      Inhabited(todo);
      var u :| u in todo;
      if clients[u].username == name {
        return Some(clients[u]);
      }
      todo := todo - {u};
    }
    found := None;
  }

  class ChatServer {
    const serverId: string
    var clients: map<int, Handler>

    constructor (serverId: string)
      ensures this.serverId == serverId && clients == map[]
    {
      this.serverId, clients := serverId, map[];
    }

    /** A second session of a user takes the first one's place. */
    method RegisterClient(h: Handler) returns (evicted: Option<Handler>)
      modifies this
      ensures clients == old(clients)[h.userId := h]
      ensures evicted ==
        if h.userId in old(clients) && old(clients)[h.userId] != h then Some(old(clients)[h.userId]) else None
    {
      evicted := None;
      if h.userId in clients && clients[h.userId] != h {
        evicted := Some(clients[h.userId]);
      }
      clients := clients[h.userId := h];
    }

    /** Removal goes by user id, whichever session asks. */
    method UnregisterClient(h: Handler)
      modifies this
      ensures clients == old(clients) - {h.userId}
    {
      clients := clients - {h.userId};
    }

    method GetClientByUsername(name: string) returns (found: Option<Handler>)
      ensures found.Some? <==> name in Names(clients)
      ensures found.Some? ==> found.value.username == name && exists u :: u in clients && clients[u] == found.value
    {
      found := FindByName(clients, name);
    }

    /** After the local room's members have been sent the message: to whom it is
        pushed here, or under which name it is published. */
    method PushDm(sender: string, code: string, members: map<int, Handler>)
      returns (local: Option<Handler>, published: Option<string>)
      ensures match D.PushOf(sender, code, Names(members), Names(clients))
              case Covered => local.None? && published.None?
              case Local(r) => local.Some? && local.value.username == r && published.None?
              case Published(r) => local.None? && published == Some(r)
    {
      local, published := None, None;
      var recipient := DmCode.ExtractRecipient(sender, code);
      if recipient.Some? && recipient.value != "" {
        var already := FindByName(members, recipient.value);
        if already.None? {
          local := GetClientByUsername(recipient.value);
          if local.None? {
            published := recipient;
          }
        }
      }
    }

    /** A copy from the channel: own echoes and unknown names are dropped. */
    method HandleDmMessage(note: D.Note) returns (target: Option<Handler>)
      ensures target.Some? <==> note.origin != serverId && note.recipient != "" && note.recipient in Names(clients)
      ensures target.Some? ==> target.value.username == note.recipient
    {
      if note.origin == serverId { return None; }
      if note.recipient == "" { return None; }
      target := GetClientByUsername(note.recipient);
    }
  }
}

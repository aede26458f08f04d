/** Direct messages across chat servers: a message goes to the members of the
    sender's local room, then to the recipient by name, locally or over the
    Redis channel, which hands every server one copy. Users are identified by
    their unique names and have one live session. */
module DmDelivery {
  import opened Common
  import opened Rooms
  import DmCode

  datatype Note = Note(id: nat, recipient: string, origin: string)

  /** `rooms` files the members of a DM room by server and code; `pending` are
      channel copies not yet handled; `inbox` counts packets sent to a user. */
  datatype Net = Net(
    at: map<string, set<string>>,
    rooms: map<(string, string), set<string>>,
    pending: multiset<(string, Note)>,
    inbox: multiset<(string, nat)>,
    nextId: nat)

  datatype Action =
    | Connect(server: string, user: string)
    | Disconnect(server: string, user: string)
    | Open(server: string, user: string, code: string)
    | Close(server: string, user: string, code: string)
    | Send(server: string, user: string, code: string, stored: bool)
    | Deliver(server: string, note: Note)

  predicate Online(n: Net, s: string, u: string) {
    s in n.at && u in n.at[s]
  }

  function Members(n: Net, s: string, code: string): set<string> {
    if (s, code) in n.rooms then n.rooms[(s, code)] else {}
  }

  function Enter(n: Net, s: string, u: string, code: string): Net {
    n.(rooms := n.rooms[(s, code) := Members(n, s, code) + {u}])
  }

  /** Where the push to the recipient goes after the local room has been served. */
  datatype Push = Covered | Local(recipient: string) | Published(recipient: string)

  function PushOf(user: string, code: string, members: set<string>, online: set<string>): Push {
    match DmCode.ExtractRecipient(user, code)
    case None => Covered
    case Some(r) =>
      if r == "" || r in members then Covered
      else if r in online then Local(r)
      else Published(r)
  }

  function SendDm(n: Net, s: string, u: string, code: string): Net
    requires s in n.at
  {
    var members := Members(n, s, code);
    var push := PushOf(u, code, members, n.at[s]);
    var id := n.nextId;
    n.(nextId := id + 1,
       inbox := n.inbox + multiset(set v | v in members :: (v, id))
                + (if push.Local? then multiset{(push.recipient, id)} else multiset{}),
       pending := n.pending +
                  (if push.Published? then multiset(set t | t in n.at :: (t, Note(id, push.recipient, s)))
                   else multiset{}))
  }

  /** One server handles one channel copy; its own echo is dropped. */
  function Handle(n: Net, s: string, note: Note): Net {
    var taken := n.(pending := n.pending - multiset{(s, note)});
    if note.origin == s || note.recipient == "" || !Online(n, s, note.recipient) then taken
    else taken.(inbox := taken.inbox + multiset{(note.recipient, note.id)})
  }

  function Step(n: Net, a: Action): Net {
    match a
    case Connect(s, u) =>
      if s in n.at && u != "" && forall t :: t in n.at ==> u !in n.at[t] then n.(at := n.at[s := n.at[s] + {u}]) else n
    case Disconnect(s, u) =>
      if s in n.at
      then n.(at := n.at[s := n.at[s] - {u}],
              rooms := map k | k in n.rooms :: if k.0 == s then n.rooms[k] - {u} else n.rooms[k])
      else n
    case Open(s, u, code) => if Online(n, s, u) && IsDm(code) then Enter(n, s, u, code) else n
    case Close(s, u, code) =>
      if Online(n, s, u) then n.(rooms := n.rooms[(s, code) := Members(n, s, code) - {u}]) else n
    case Send(s, u, code, stored) =>
      if !Online(n, s, u) || !IsDm(code) then n
      else
        var entered := Enter(n, s, u, code);
        if stored then SendDm(entered, s, u, code) else entered
    case Deliver(s, note) => if n.pending[(s, note)] > 0 then Handle(n, s, note) else n
  }

  function Run(n: Net, actions: seq<Action>): Net {
    if actions == [] then n else Step(Run(n, actions[..|actions| - 1]), actions[|actions| - 1])
  }

  function Start(servers: set<string>): Net {
    Net(map s | s in servers :: {}, map[], multiset{}, multiset{}, 0)
  }

  /* ---------- what every reachable state keeps ---------- */

  ghost predicate OneSession(n: Net) {
    forall s, t, u :: Online(n, s, u) && Online(n, t, u) ==> s == t
  }

  ghost predicate RoomsOnline(n: Net) {
    forall k, u :: k in n.rooms && u in n.rooms[k] ==> Online(n, k.0, u)
  }

  ghost predicate IdsFresh(n: Net) {
    && (forall u, id :: (u, id) in n.inbox ==> id < n.nextId)
    && (forall s, note :: (s, note) in n.pending ==> note.id < n.nextId)
  }

  ghost predicate Sound(n: Net) {
    OneSession(n) && RoomsOnline(n) && IdsFresh(n)
  }

  lemma StepOneSession(n: Net, a: Action)
    requires OneSession(n)
    ensures OneSession(Step(n, a))
  {
    var n' := Step(n, a);
    if a.Connect? {
      forall s, u | Online(n', s, u) ensures Online(n, s, u) || (s == a.server && u == a.user) {}
      if n' != n { forall t ensures !Online(n, t, a.user) {} }
    } else {
      forall s, u | Online(n', s, u) ensures Online(n, s, u) {}
    }
  }

  lemma StepRoomsOnline(n: Net, a: Action)
    requires RoomsOnline(n)
    ensures RoomsOnline(Step(n, a))
  {
    var n' := Step(n, a);
    forall k, u | k in n'.rooms && u in n'.rooms[k] ensures Online(n', k.0, u) {
      match a
      case Disconnect(s, v) => assert Online(n, k.0, u);
      case Open(s, v, code) => assert Online(n, k.0, u) || (k == (s, code) && u == v);
      case Close(s, v, code) => assert Online(n, k.0, u);
      case Send(s, v, code, stored) => assert Online(n, k.0, u) || (k == (s, code) && u == v);
      case _ => assert Online(n, k.0, u);
    }
  }

  lemma StepIdsFresh(n: Net, a: Action)
    requires IdsFresh(n)
    ensures IdsFresh(Step(n, a))
  {
    if a.Send? && Online(n, a.server, a.user) && IsDm(a.code) && a.stored {
      SendIdsFresh(Enter(n, a.server, a.user, a.code), a.server, a.user, a.code);
    }
  }

  lemma SendIdsFresh(n: Net, s: string, u: string, code: string)
    requires IdsFresh(n) && s in n.at
    ensures IdsFresh(SendDm(n, s, u, code))
  {
  }

  lemma StepSound(n: Net, a: Action)
    requires Sound(n)
    ensures Sound(Step(n, a))
  {
    StepOneSession(n, a);
    StepRoomsOnline(n, a);
    StepIdsFresh(n, a);
  }

  lemma {:induction false} RunSound(servers: set<string>, actions: seq<Action>)
    ensures Sound(Run(Start(servers), actions))
  {
    if actions != [] {
      RunSound(servers, actions[..|actions| - 1]);
      StepSound(Run(Start(servers), actions[..|actions| - 1]), actions[|actions| - 1]);
    }
  }

  /** Connecting and disconnecting move one user on one server; opening and closing
      a direct-message room move one member of it. */
  lemma ActionsTakeEffect(n: Net, s: string, u: string, code: string)
    requires s in n.at && u != ""
    ensures (forall t :: t in n.at ==> !Online(n, t, u)) ==>
      forall t, v :: Online(Step(n, Connect(s, u)), t, v) <==> Online(n, t, v) || (t == s && v == u)
    ensures forall t, v :: Online(Step(n, Disconnect(s, u)), t, v) <==> Online(n, t, v) && !(t == s && v == u)
    ensures Online(n, s, u) ==> Members(Step(n, Close(s, u, code)), s, code) == Members(n, s, code) - {u}
    ensures Online(n, s, u) && "DM-" <= code ==>
      Members(Step(n, Open(s, u, code)), s, code) == Members(n, s, code) + {u}
  {
    if forall t :: t in n.at ==> !Online(n, t, u) {
      assert forall t :: t in n.at ==> u !in n.at[t];
    }
  }

  /** A message from one server to a user of another: once both have handled their
      copy off the channel, sender and recipient have it once. */
  lemma CrossServerExample()
    ensures var sent := [Connect("A", "alice"), Connect("B", "bob"), Send("A", "alice", "DM-alice-bob", true)];
            var note := Note(0, "bob", "A");
            var done := Run(Run(Start({"A", "B"}), sent), [Deliver("A", note), Deliver("B", note)]);
            done.inbox == multiset{("alice", 0), ("bob", 0)} && done.pending == multiset{}
  {
    var note := Note(0, "bob", "A");
    var n := Net(map["A" := {"alice"}, "B" := {"bob"}], map[], multiset{}, multiset{}, 0);
    BothConnect(n);
    var sent := [Connect("A", "alice"), Connect("B", "bob"), Send("A", "alice", "DM-alice-bob", true)];
    assert sent[..2] == [Connect("A", "alice"), Connect("B", "bob")];
    var n' := Step(n, Send("A", "alice", "DM-alice-bob", true));
    BobIsRead();
    SendPublishes(n, n', "DM-alice-bob");
    RunTwo(n', Deliver("A", note), Deliver("B", note));
    BothHandle(n');
  }

  lemma RunTwo(n: Net, a: Action, b: Action)
    ensures Run(n, [a, b]) == Step(Step(n, a), b)
  {
    assert [a, b][..1] == [a] && [a][..0] == [];
    assert Run(n, [a]) == Step(n, a);
  }

  lemma BothConnect(n: Net)
    requires n == Net(map["A" := {"alice"}, "B" := {"bob"}], map[], multiset{}, multiset{}, 0)
    ensures Run(Start({"A", "B"}), [Connect("A", "alice"), Connect("B", "bob")]) == n
  {
    RunTwo(Start({"A", "B"}), Connect("A", "alice"), Connect("B", "bob"));
    var n0 := Start({"A", "B"});
    assert n0.at == map["A" := {}, "B" := {}];
    var n1 := Step(n0, Connect("A", "alice"));
    assert n1.at["A"] == {"alice"} && n1.at["B"] == {} && n1.at.Keys == {"A", "B"};
    var n2 := Step(n1, Connect("B", "bob"));
    assert n2.at["A"] == {"alice"} && n2.at["B"] == {"bob"} && n2.at.Keys == {"A", "B"};
    assert n2.at == n.at;
  }

  lemma BobIsRead()
    ensures IsDm("DM-alice-bob") && DmCode.ExtractRecipient("alice", "DM-alice-bob") == Some("bob")
  {
    assert "DM-alice-bob"[3..] == "alice-bob" && "alice-bob"[..6] == "alice" + "-" && "alice-bob"[6..] == "bob";
  }

  lemma SendPublishes(n: Net, n': Net, code: string)
    requires IsDm(code) && DmCode.ExtractRecipient("alice", code) == Some("bob")
    requires n.at == map["A" := {"alice"}, "B" := {"bob"}] && n.rooms == map[] && n.nextId == 0
    requires n.pending == multiset{} && n.inbox == multiset{}
    requires n' == Step(n, Send("A", "alice", code, true))
    ensures n'.at == n.at && n'.inbox == multiset{("alice", 0)}
    ensures n'.pending == multiset{("A", Note(0, "bob", "A")), ("B", Note(0, "bob", "A"))}
  {
    var entered := Enter(n, "A", "alice", code);
    assert Members(entered, "A", code) == {"alice"};
    PublishedIs(entered, code);
  }

  lemma PublishedIs(n: Net, code: string)
    requires DmCode.ExtractRecipient("alice", code) == Some("bob") && Members(n, "A", code) == {"alice"}
    requires n.at == map["A" := {"alice"}, "B" := {"bob"}] && n.nextId == 0
    requires n.pending == multiset{} && n.inbox == multiset{}
    ensures var n' := SendDm(n, "A", "alice", code);
            && n'.at == n.at && n'.inbox == multiset{("alice", 0)}
            && n'.pending == multiset{("A", Note(0, "bob", "A")), ("B", Note(0, "bob", "A"))}
  {
    assert PushOf("alice", code, {"alice"}, {"alice"}) == Published("bob");
    var members := Members(n, "A", code);
    assert (set v | v in members :: (v, 0)) == {("alice", 0)};
    assert (set t | t in n.at :: (t, Note(0, "bob", "A"))) == {("A", Note(0, "bob", "A")), ("B", Note(0, "bob", "A"))};
  }

  lemma BothHandle(n: Net)
    requires n.at == map["A" := {"alice"}, "B" := {"bob"}] && n.inbox == multiset{("alice", 0)}
    requires n.pending == multiset{("A", Note(0, "bob", "A")), ("B", Note(0, "bob", "A"))}
    ensures var note := Note(0, "bob", "A");
            var done := Step(Step(n, Deliver("A", note)), Deliver("B", note));
            done.inbox == multiset{("alice", 0), ("bob", 0)} && done.pending == multiset{}
  {
    var note := Note(0, "bob", "A");
    assert n.pending - multiset{("A", note)} == multiset{("B", note)};
    OwnEcho(n, "A", note);
    assert multiset{("B", note)} - multiset{("B", note)} == multiset{};
  }

  lemma OwnEcho(n: Net, s: string, note: Note)
    requires n.pending[(s, note)] > 0 && note.origin == s
    ensures Step(n, Deliver(s, note)) == n.(pending := n.pending - multiset{(s, note)})
  {
  }

  /* ---------- one message's fate ---------- */

  /** The copies of message `id` still due to reach `u` over the channel, when
      it was published by `origin` and `u` is connected to `home`. */
  function Due(n: Net, u: string, id: nat, origin: string, home: string): nat {
    if home == origin then 0 else n.pending[(home, Note(id, u, origin))]
  }

  /** Everyone in `audience` has or is still owed exactly one copy, nobody else any. */
  ghost predicate OnCourse(n: Net, id: nat, b: string, origin: string, home: string, audience: set<string>) {
    && id < n.nextId
    && (forall v :: v != b ==> n.inbox[(v, id)] == if v in audience then 1 else 0)
    && n.inbox[(b, id)] + Due(n, b, id, origin, home) == 1
    && (forall s, note :: (s, note) in n.pending && note.id == id ==> note == Note(id, b, origin))
  }

  lemma SendStartsCourse(n: Net, s: string, u: string, code: string, b: string, home: string)
    requires Sound(n) && Online(n, s, u) && Online(n, home, b) && IsDm(code)
    requires b != "" && DmCode.ExtractRecipient(u, code) == Some(b)
    ensures OnCourse(Step(n, Send(s, u, code, true)), n.nextId, b, s, home, Members(n, s, code) + {u, b})
  {
    var entered := Enter(n, s, u, code);
    StepSound(n, Open(s, u, code));
    var members := Members(entered, s, code);
    assert members == Members(n, s, code) + {u};
    Located(entered, s, code, b, home);
    SendIsOnCourse(entered, s, u, code, b, home);
  }

  /** A recipient found in the room, or connected here, is at home here. */
  lemma Located(n: Net, s: string, code: string, b: string, home: string)
    requires Sound(n) && Online(n, home, b) && s in n.at
    ensures b in Members(n, s, code) || b in n.at[s] ==> home == s
  {
    if b in Members(n, s, code) {
      assert (s, code) in n.rooms && Online(n, s, b);
    }
    assert Online(n, s, b) <==> b in n.at[s];
  }

  lemma SendIsOnCourse(n: Net, s: string, u: string, code: string, b: string, home: string)
    requires IdsFresh(n) && s in n.at && home in n.at && b in n.at[home]
    requires b != "" && DmCode.ExtractRecipient(u, code) == Some(b) && u in Members(n, s, code)
    requires (b in Members(n, s, code) ==> home == s) && (home != s ==> b !in n.at[s])
    ensures OnCourse(SendDm(n, s, u, code), n.nextId, b, s, home, Members(n, s, code) + {b})
  {
    var members, id := Members(n, s, code), n.nextId;
    var copies := set v | v in members :: (v, id);
    assert forall v :: multiset(copies)[(v, id)] == if v in members then 1 else 0;
    assert forall v :: (v, id) !in n.inbox;
    assert forall t, note :: (t, note) in n.pending ==> note.id != id;
    if home != s {
      var notes := set t | t in n.at :: (t, Note(id, b, s));
      assert (home, Note(id, b, s)) in notes;
    }
  }

  lemma StepKeepsCourse(n: Net, a: Action, id: nat, b: string, origin: string, home: string, audience: set<string>)
    requires Sound(n) && OnCourse(n, id, b, origin, home, audience) && Online(n, home, b) && b != ""
    ensures OnCourse(Step(n, a), id, b, origin, home, audience)
  {
    match a
    case Deliver(s, note) =>
      if n.pending[(s, note)] > 0 { HandleKeepsCourse(n, s, note, id, b, origin, home, audience); }
    case Send(s, u, code, stored) =>
      if Online(n, s, u) && IsDm(code) && stored {
        SendKeepsCourse(Enter(n, s, u, code), s, u, code, id, b, origin, home, audience);
      }
    case _ =>
  }

  lemma HandleKeepsCourse(n: Net, s: string, note: Note, id: nat, b: string, origin: string, home: string,
                          audience: set<string>)
    requires OneSession(n) && OnCourse(n, id, b, origin, home, audience) && Online(n, home, b) && b != ""
    requires n.pending[(s, note)] > 0
    ensures OnCourse(Handle(n, s, note), id, b, origin, home, audience)
  {
    if note.id == id {
      assert (s, note) in n.pending && note == Note(id, b, origin);
      if s != home { assert !Online(n, s, b); }
    }
  }

  lemma SendKeepsCourse(n: Net, s: string, u: string, code: string, id: nat, b: string, origin: string, home: string,
                        audience: set<string>)
    requires s in n.at && OnCourse(n, id, b, origin, home, audience)
    ensures OnCourse(SendDm(n, s, u, code), id, b, origin, home, audience)
  {
    var n' := SendDm(n, s, u, code);
    assert forall v :: (v, id) !in (set v | v in Members(n, s, code) :: (v, n.nextId));
    forall v: string ensures n'.inbox[(v, id)] == n.inbox[(v, id)] {}
    forall t: string, note: Note | note.id == id ensures n'.pending[(t, note)] == n.pending[(t, note)] {}
  }

  lemma {:induction false} CourseIsKept(n: Net, actions: seq<Action>, id: nat, b: string, origin: string, home: string,
                                        audience: set<string>)
    requires Sound(n) && OnCourse(n, id, b, origin, home, audience) && b != ""
    requires forall i :: 0 <= i <= |actions| ==> Online(Run(n, actions[..i]), home, b)
    ensures Sound(Run(n, actions)) && OnCourse(Run(n, actions), id, b, origin, home, audience)
  {
    if actions != [] {
      var k := |actions| - 1;
      var pre := actions[..k];
      assert forall i :: 0 <= i <= k ==> pre[..i] == actions[..i];
      CourseIsKept(n, pre, id, b, origin, home, audience);
      assert pre[..k] == pre;
      StepSound(Run(n, pre), actions[k]);
      StepKeepsCourse(Run(n, pre), actions[k], id, b, origin, home, audience);
    }
  }

  /** One direct message, exactly once: after the channel has handed out every
      copy of it, the sender has exactly one copy, so has a recipient who stayed
      connected to one server, wherever that is, so has any other member of the
      sender's local room, and nobody else has any. */
  lemma ExactlyOnce(servers: set<string>, before: seq<Action>, s: string, a: string, code: string,
                    b: string, home: string, later: seq<Action>)
    requires var n := Run(Start(servers), before);
             Online(n, s, a) && Online(n, home, b) && IsDm(code) && b != ""
             && DmCode.ExtractRecipient(a, code) == Some(b)
    requires var sent := Step(Run(Start(servers), before), Send(s, a, code, true));
             && (forall i :: 0 <= i <= |later| ==> Online(Run(sent, later[..i]), home, b))
             && (forall t, note :: (t, note) in Run(sent, later).pending ==>
                   note.id != Run(Start(servers), before).nextId)
    ensures var n := Run(Start(servers), before);
            var id := n.nextId;
            var done := Run(Step(n, Send(s, a, code, true)), later);
            && done.inbox[(a, id)] == 1
            && done.inbox[(b, id)] == 1
            && forall v :: done.inbox[(v, id)] == if v in Members(n, s, code) + {a, b} then 1 else 0
  {
    var n := Run(Start(servers), before);
    RunSound(servers, before);
    SendStartsCourse(n, s, a, code, b, home);
    var sent := Step(n, Send(s, a, code, true));
    StepSound(n, Send(s, a, code, true));
    CourseIsKept(sent, later, n.nextId, b, s, home, Members(n, s, code) + {a, b});
    assert (home, Note(n.nextId, b, s)) !in Run(sent, later).pending;
  }
}

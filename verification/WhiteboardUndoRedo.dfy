/** Undo and redo end to end, over a network with delays: several users of one
    room press Draw, Undo and Redo; each press may send an event, which the
    server files later; each client hears the broadcasts in order, at its own
    pace. A user is patient when each press comes after the broadcast of the
    user's previous event has come back; the others may have anything in flight.
    Nobody joins late, no snapshot is taken and nobody undoes by other means
    than the buttons. */
module WhiteboardUndoRedo {
  import opened Common
  import opened WhiteboardLog
  import opened WhiteboardReplica
  import opened WhiteboardStacks

  const ROOM := "room"

  datatype Message = Message(kind: Kind, payload: Payload)

  /** `outbox` holds what was sent and not yet filed; `heard` counts the
      broadcasts the client has processed. */
  datatype Client = Client(widget: Widget, outbox: seq<Message>, heard: nat)

  /** `filed` are the room's events in the order of their numbers. */
  datatype Room = Room(filed: seq<Event>, clients: map<int, Client>)

  datatype Click = DrawShape(kind: Kind, payload: Payload) | PressUndo | PressRedo

  datatype Action = Press(userId: int, click: Click) | File(userId: int) | Hear(userId: int)

  ghost function Opened(users: set<int>): Room {
    Room([], map u | u in users :: Client(EMPTY_WIDGET, [], 0))
  }

  /** A press of a button: the widget after it and the event it sends, if any. */
  function AfterClick(w: Widget, click: Click): (Widget, seq<Message>) {
    match click
    case DrawShape(kind, payload) => if kind == Undo then (w, []) else (FinishShape(w), [Message(kind, payload)])
    case PressUndo => var (w', sent) := ClickUndo(w); (w', if sent.Some? then [Message(Undo, sent.value)] else [])
    case PressRedo => var (w', sent) := ClickRedo(w); (w', if sent.Some? then [Message(Undo, sent.value)] else [])
  }

  function EventOf(n: int, u: int, message: Message): Event {
    Event(n, u, message.kind, message.payload, None)
  }

  ghost function Step(r: Room, a: Action): Room {
    if a.userId !in r.clients then r
    else
      var u, c := a.userId, r.clients[a.userId];
      match a
      case Press(_, click) =>
        var (w, sent) := AfterClick(c.widget, click);
        r.(clients := r.clients[u := c.(widget := w, outbox := c.outbox + sent)])
      case File(_) =>
        if c.outbox == [] then r
        else Room(r.filed + [EventOf(|r.filed| + 1, u, c.outbox[0])], r.clients[u := c.(outbox := c.outbox[1..])])
      case Hear(_) =>
        if c.heard >= |r.filed| then r
        else
          var news := BroadcastOf(ROOM, LogOf(r.filed[..c.heard]), c.heard + 1, r.filed[c.heard]);
          r.(clients := r.clients[u := c.(widget := Receive(c.widget, ROOM, u, news), heard := c.heard + 1)])
  }

  ghost function Play(r: Room, actions: seq<Action>): Room {
    if actions == [] then r else Step(Play(r, actions[..|actions| - 1]), actions[|actions| - 1])
  }

  /** Nothing of the user's own is waiting to be filed or heard. */
  ghost predicate Settled(r: Room, u: int) {
    && u in r.clients
    && r.clients[u].outbox == []
    && forall i :: r.clients[u].heard <= i < |r.filed| ==> r.filed[i].userId != u
  }

  /** Every press comes when the presser's earlier events have all come back. */
  ghost predicate Patient(r: Room, actions: seq<Action>) {
    forall i :: 0 <= i < |actions| && actions[i].Press? && actions[i].userId in r.clients ==>
      Settled(Play(r, actions[..i]), actions[i].userId)
  }

  /* ---------- what a run keeps ---------- */

  /** The widget as it will be once the client has heard everything filed so far. */
  ghost function CaughtUp(r: Room, u: int): Widget
    requires u in r.clients && r.clients[u].heard <= |r.filed|
  {
    Watch(r.clients[u].widget, ROOM, u, r.filed, r.clients[u].heard, |r.filed|)
  }

  ghost predicate FiledInOrder(filed: seq<Event>) {
    NumberedFromOne(filed) && Disciplined(LogOf(filed))
  }

  /** Each canvas shows the server's picture as of the last broadcast heard. */
  ghost predicate Canvases(r: Room) {
    forall u :: u in r.clients ==>
      r.clients[u].heard <= |r.filed| && Shows(r.clients[u].widget.view, LogOf(r.filed[..r.clients[u].heard]))
  }

  /** With nothing waiting to be filed the stacks agree with the log; otherwise
      one event waits, and the stacks before its click agree. */
  ghost predicate Follows(m: Log, u: int, w: Widget, outbox: seq<Message>) {
    && MapSound(m, w.redoOf)
    && if outbox == [] then Agrees(m, u, w) else |outbox| == 1 && Sends(m, u, w, outbox)
  }

  ghost predicate Sends(m: Log, u: int, w: Widget, outbox: seq<Message>) {
    exists w0, click :: Agrees(m, u, w0) && AfterClick(w0, click) == (w, outbox)
  }

  ghost predicate UserInStep(r: Room, u: int)
    requires u in r.clients && r.clients[u].heard <= |r.filed|
  {
    Follows(LogOf(r.filed), u, CaughtUp(r, u), r.clients[u].outbox)
  }

  ghost predicate InStep(r: Room, users: set<int>) {
    && FiledInOrder(r.filed)
    && Canvases(r)
    && forall u :: u in users && u in r.clients ==> UserInStep(r, u)
  }

  /* ---------- catching up ---------- */

  lemma {:induction false} WatchPrefix(w: Widget, me: int, es: seq<Event>, e: Event, first: nat, last: nat)
    requires first <= last <= |es|
    ensures Watch(w, ROOM, me, es + [e], first, last) == Watch(w, ROOM, me, es, first, last)
    decreases last
  {
    if first != last {
      WatchPrefix(w, me, es, e, first, last - 1);
      assert (es + [e])[..last - 1] == es[..last - 1];
    }
  }

  lemma WatchFiled(w: Widget, me: int, es: seq<Event>, e: Event, first: nat)
    requires first <= |es|
    ensures Watch(w, ROOM, me, es + [e], first, |es| + 1) ==
            Receive(Watch(w, ROOM, me, es, first, |es|), ROOM, me, BroadcastOf(ROOM, LogOf(es), |es| + 1, e))
  {
    WatchPrefix(w, me, es, e, first, |es|);
    assert (es + [e])[..|es|] == es;
  }

  /** Hearing one broadcast changes nothing about where the client is heading. */
  lemma {:induction false} WatchFirst(w: Widget, w': Widget, me: int, es: seq<Event>, first: nat, last: nat)
    requires first < last <= |es|
    requires w' == Receive(w, ROOM, me, BroadcastOf(ROOM, LogOf(es[..first]), first + 1, es[first]))
    ensures Watch(w, ROOM, me, es, first, last) == Watch(w', ROOM, me, es, first + 1, last)
    decreases last
  {
    if first + 1 < last {
      WatchFirst(w, w', me, es, first, last - 1);
    } else {
      assert Watch(w, ROOM, me, es, first, first) == w;
    }
  }

  ghost predicate SameStacks(a: Widget, b: Widget) {
    a.drawn == b.drawn && a.undone == b.undone && a.redoOf == b.redoOf
  }

  /** Other users' broadcasts do not touch the stacks. */
  lemma {:induction false} WatchOthers(w: Widget, me: int, es: seq<Event>, first: nat, last: nat)
    requires first <= last <= |es|
    requires forall i :: first <= i < last ==> es[i].userId != me
    ensures SameStacks(Watch(w, ROOM, me, es, first, last), w)
    decreases last
  {
    if first != last { WatchOthers(w, me, es, first, last - 1); }
  }

  lemma {:induction false} WatchView(w: Widget, w': Widget, me: int, es: seq<Event>, first: nat, last: nat)
    requires first <= last <= |es| && w.view == w'.view
    ensures Watch(w, ROOM, me, es, first, last).view == Watch(w', ROOM, me, es, first, last).view
    decreases last
  {
    if first != last { WatchView(w, w', me, es, first, last - 1); }
  }

  lemma ClickStacks(w: Widget, w': Widget, click: Click)
    requires SameStacks(w, w')
    ensures AfterClick(w, click).1 == AfterClick(w', click).1
    ensures SameStacks(AfterClick(w, click).0, AfterClick(w', click).0)
    ensures AfterClick(w, click).0.view == w.view
  {
  }

  /** A click while only others' broadcasts are on their way can as well come after them. */
  lemma ClickCommutes(w: Widget, me: int, es: seq<Event>, first: nat, last: nat, click: Click)
    requires first <= last <= |es|
    requires forall i :: first <= i < last ==> es[i].userId != me
    ensures var (after, sent) := AfterClick(w, click);
            AfterClick(Watch(w, ROOM, me, es, first, last), click) == (Watch(after, ROOM, me, es, first, last), sent)
  {
    var caught, after := Watch(w, ROOM, me, es, first, last), AfterClick(w, click).0;
    WatchOthers(w, me, es, first, last);
    WatchOthers(after, me, es, first, last);
    ClickStacks(w, caught, click);
    ClickStacks(caught, w, click);
    WatchView(w, after, me, es, first, last);
  }

  /* ---------- each action keeps the users in step ---------- */

  lemma ClickFollows(m: Log, u: int, w: Widget, click: Click)
    requires Follows(m, u, w, [])
    ensures Follows(m, u, AfterClick(w, click).0, AfterClick(w, click).1)
  {
    if click.PressRedo? && w.undone != [] {
      var x := w.undone[|w.undone| - 1];
      assert x in w.undone && Hidden(m, u, w.redoOf, x);
    }
    assert AfterClick(w, click) == (AfterClick(w, click).0, AfterClick(w, click).1);
  }

  lemma PressKeeps(r: Room, u: int, click: Click, users: set<int>)
    requires InStep(r, users) && u in r.clients && (u in users ==> Settled(r, u))
    ensures InStep(Step(r, Press(u, click)), users)
  {
    var c, r' := r.clients[u], Step(r, Press(u, click));
    ClickStacks(c.widget, c.widget, click);
    if u in users {
      assert UserInStep(r, u);
      ClickCommutes(c.widget, u, r.filed, c.heard, |r.filed|, click);
      ClickFollows(LogOf(r.filed), u, CaughtUp(r, u), click);
      assert r'.clients[u].outbox == AfterClick(c.widget, click).1;
      assert UserInStep(r', u);
    }
    forall v | v in users && v in r'.clients && v != u ensures UserInStep(r', v) {
      assert UserInStep(r, v);
    }
  }

  lemma HearKeeps(r: Room, u: int, users: set<int>)
    requires InStep(r, users) && u in r.clients
    ensures InStep(Step(r, Hear(u)), users)
  {
    if r.clients[u].heard < |r.filed| {
      HeardShows(r, u);
      HeardCanvases(r, u);
      forall v | v in users && v in r.clients ensures UserInStep(Step(r, Hear(u)), v) {
        assert UserInStep(r, v);
        HeardSame(r, u, v);
      }
    }
  }

  /** Hearing a broadcast leaves everyone heading where they were. */
  lemma HeardSame(r: Room, u: int, v: int)
    requires u in r.clients && r.clients[u].heard < |r.filed| && v in r.clients && r.clients[v].heard <= |r.filed|
    ensures var r' := Step(r, Hear(u));
            && r'.clients[v].heard <= |r'.filed| && r'.filed == r.filed
            && r'.clients[v].outbox == r.clients[v].outbox && CaughtUp(r', v) == CaughtUp(r, v)
  {
    var c := r.clients[u];
    WatchFirst(c.widget, Step(r, Hear(u)).clients[u].widget, u, r.filed, c.heard, |r.filed|);
  }

  lemma HeardCanvases(r: Room, u: int)
    requires Canvases(r) && u in r.clients
    requires var c := Step(r, Hear(u)).clients[u];
             c.heard <= |r.filed| && Shows(c.widget.view, LogOf(r.filed[..c.heard]))
    ensures Canvases(Step(r, Hear(u)))
  {
  }

  /** The canvas follows the broadcast just heard. */
  lemma HeardShows(r: Room, u: int)
    requires FiledInOrder(r.filed) && Canvases(r) && u in r.clients && r.clients[u].heard < |r.filed|
    ensures var c := Step(r, Hear(u)).clients[u];
            c.heard <= |r.filed| && Shows(c.widget.view, LogOf(r.filed[..c.heard]))
  {
    var c := r.clients[u];
    DisciplinedBackward(LogOf(r.filed));
    NextIsFresh(r.filed, c.heard + 1);
    ReceiveConverges(c.widget, ROOM, u, LogOf(r.filed[..c.heard]), c.heard + 1, r.filed[c.heard]);
  }

  /** Filing an author's waiting event: the log changes visibility at one of the
      author's events only, and the author's stacks agree once it is heard. */
  lemma AuthorFiles(m: Log, n: int, u: int, w: Widget, message: Message) returns (x: int)
    requires Above(m, n) && Disciplined(m) && Follows(m, u, w, [message])
    ensures var e := EventOf(n, u, message);
            var m' := m[n := e];
            && Disciplined(m') && ChangedOnlyAt(m, m', x) && x in m' && m'[x].userId == u
            && Follows(m', u, Receive(w, ROOM, u, BroadcastOf(ROOM, m, n, e)), [])
  {
    var w0, click :| Agrees(m, u, w0) && AfterClick(w0, click) == (w, [message]);
    match click
    case DrawShape(_, _) => x := DrawFiles(m, n, u, w0, w, message);
    case PressUndo => x := UndoFiles(m, n, u, w0, w, message);
    case PressRedo => x := RedoFiles(m, n, u, w0, w, message);
  }

  lemma DrawFiles(m: Log, n: int, u: int, w0: Widget, w: Widget, message: Message) returns (x: int)
    requires Above(m, n) && Disciplined(m) && Agrees(m, u, w0) && message.kind != Undo
    requires w == FinishShape(w0)
    ensures var e := EventOf(n, u, message);
            var m' := m[n := e];
            && Disciplined(m') && ChangedOnlyAt(m, m', x) && x in m' && m'[x].userId == u
            && Follows(m', u, Receive(w, ROOM, u, BroadcastOf(ROOM, m, n, e)), [])
  {
    x := n;
    var e := EventOf(n, u, message);
    NothingAhead(m, n);
    DrawOne(m, n, e);
    DrawAuthorAgrees(m, n, e, u, w0);
    DisciplinedAppend(m, n, e);
    var w' := Receive(w, ROOM, u, BroadcastOf(ROOM, m, n, e));
    assert w'.drawn == w0.drawn + [n] && w'.undone == [] && w'.redoOf == map[];
  }

  /** What hearing one's own undo does to the stacks. */
  lemma ReceivedUndo(w: Widget, u: int, m: Log, n: int, e: Event, target: int)
    requires e.userId == u && Targets(e, target)
    ensures var w' := Receive(w, ROOM, u, BroadcastOf(ROOM, m, n, e));
            w'.drawn == w.drawn && w'.undone == w.undone && w'.redoOf == w.redoOf[target := n]
  {
  }

  lemma UndoFiles(m: Log, n: int, u: int, w0: Widget, w: Widget, message: Message) returns (x: int)
    requires Above(m, n) && Disciplined(m) && Agrees(m, u, w0) && w0.drawn != []
    requires AfterClick(w0, PressUndo) == (w, [message]) && MapSound(m, w0.redoOf)
    ensures x == w0.drawn[|w0.drawn| - 1]
    ensures var e := EventOf(n, u, message);
            var m' := m[n := e];
            && Disciplined(m') && ChangedOnlyAt(m, m', x) && x in m' && m'[x].userId == u
            && Follows(m', u, Receive(w, ROOM, u, BroadcastOf(ROOM, m, n, e)), [])
  {
    x := w0.drawn[|w0.drawn| - 1];
    UndoOnLog(m, n, u, w0);
    UndoHeard(m, n, u, w0, w, message);
  }

  lemma UndoHeard(m: Log, n: int, u: int, w0: Widget, w: Widget, message: Message)
    requires Above(m, n) && Agrees(m, u, w0) && w0.drawn != [] && MapSound(m, w0.redoOf)
    requires AfterClick(w0, PressUndo) == (w, [message])
    ensures var e := EventOf(n, u, message);
            Follows(m[n := e], u, Receive(w, ROOM, u, BroadcastOf(ROOM, m, n, e)), [])
  {
    var x, e := w0.drawn[|w0.drawn| - 1], EventOf(n, u, message);
    assert [message][0] == Message(Undo, UndoPayload(x));
    UndoAuthorAgrees(m, n, e, u, w0);
    ReceivedUndo(w, u, m, n, e, x);
    MapGrows(m, n, e, w0.redoOf, x);
  }

  lemma RedoFiles(m: Log, n: int, u: int, w0: Widget, w: Widget, message: Message) returns (x: int)
    requires Above(m, n) && Disciplined(m) && Agrees(m, u, w0) && w0.undone != []
    requires AfterClick(w0, PressRedo) == (w, [message]) && MapSound(m, w0.redoOf)
    ensures x == w0.undone[|w0.undone| - 1]
    ensures var e := EventOf(n, u, message);
            var m' := m[n := e];
            && Disciplined(m') && ChangedOnlyAt(m, m', x) && x in m' && m'[x].userId == u
            && Follows(m', u, Receive(w, ROOM, u, BroadcastOf(ROOM, m, n, e)), [])
  {
    x := w0.undone[|w0.undone| - 1];
    var e := EventOf(n, u, message);
    RedoTarget(m, u, w0);
    RedoOnLog(m, n, e, w0.redoOf[x], x);
    RedoAuthorAgrees(m, n, e, u, w0);
    ReceivedUndo(w, u, m, n, e, w0.redoOf[x]);
    MapGrows(m, n, e, w0.redoOf, w0.redoOf[x]);
  }

  /** A change at another user's event leaves a user's stacks as they were. */
  lemma OthersFollow(m: Log, m': Log, v: int, w: Widget, w': Widget, outbox: seq<Message>, x: int)
    requires Follows(m, v, w, outbox) && SameStacks(w, w')
    requires ChangedOnlyAt(m, m', x) && x in m' && m'[x].userId != v
    ensures Follows(m', v, w', outbox)
  {
    MapKept(m, m', w.redoOf, x);
    if outbox == [] {
      OthersAgree(m, m', v, w, x);
    } else {
      var w0, click :| Agrees(m, v, w0) && AfterClick(w0, click) == (w, outbox);
      OthersAgree(m, m', v, w0, x);
      var v0 := w0.(view := w'.view);
      ClickStacks(w0, v0, click);
      ClickStacks(v0, w0, click);
      assert Agrees(m', v, v0) && AfterClick(v0, click) == (w', outbox);
    }
  }

  lemma FiledLog(filed: seq<Event>, e: Event)
    requires NumberedFromOne(filed) && e.seqNum == |filed| + 1
    ensures NumberedFromOne(filed + [e])
    ensures LogOf(filed + [e]) == LogOf(filed)[|filed| + 1 := e]
    ensures Above(LogOf(filed), |filed| + 1)
  {
    LogOfHas(filed);
    assert (filed + [e])[..|filed|] == filed;
  }

  /** Whoever files an event that changes visibility at one of the filer's own
      events, everyone else stays in step. */
  lemma OthersKeep(r: Room, u: int, x: int, users: set<int>)
    requires InStep(r, users) && u in r.clients && r.clients[u].outbox != []
    requires var m := LogOf(r.filed);
             var m' := m[|r.filed| + 1 := EventOf(|r.filed| + 1, u, r.clients[u].outbox[0])];
             Disciplined(m') && ChangedOnlyAt(m, m', x) && x in m' && m'[x].userId == u
    ensures InStep(Step(r, File(u)), users - {u})
  {
    var r' := Step(r, File(u));
    var e := EventOf(|r.filed| + 1, u, r.clients[u].outbox[0]);
    FiledLog(r.filed, e);
    CanvasesStay(r, u);
    forall v | v in users - {u} && v in r'.clients ensures UserInStep(r', v) {
      assert UserInStep(r, v);
      var c := r.clients[v];
      WatchFiled(c.widget, v, r.filed, e, c.heard);
      OthersFollow(LogOf(r.filed), LogOf(r'.filed), v, CaughtUp(r, v), CaughtUp(r', v), c.outbox, x);
    }
  }

  lemma CanvasesStay(r: Room, u: int)
    requires Canvases(r) && u in r.clients
    ensures Canvases(Step(r, File(u)))
  {
    var r' := Step(r, File(u));
    forall v | v in r'.clients
      ensures r'.clients[v].heard <= |r'.filed|
              && Shows(r'.clients[v].widget.view, LogOf(r'.filed[..r'.clients[v].heard]))
    {
      assert r'.filed[..r.clients[v].heard] == r.filed[..r.clients[v].heard];
    }
  }

  lemma FileKeeps(r: Room, u: int, users: set<int>)
    requires InStep(r, users) && u in users && u in r.clients
    ensures InStep(Step(r, File(u)), users)
  {
    var c := r.clients[u];
    if c.outbox != [] {
      assert UserInStep(r, u);
      var x := OwnFile(r, u);
      OthersKeep(r, u, x, users);
      WithOwn(Step(r, File(u)), u, users);
    }
  }

  lemma WithOwn(r: Room, u: int, users: set<int>)
    requires InStep(r, users - {u}) && u in r.clients && UserInStep(r, u)
    ensures InStep(r, users)
  {
  }

  /** The filer's own side of it. */
  lemma OwnFile(r: Room, u: int) returns (x: int)
    requires FiledInOrder(r.filed) && u in r.clients && r.clients[u].heard <= |r.filed|
    requires UserInStep(r, u) && r.clients[u].outbox != []
    ensures var m, r' := LogOf(r.filed), Step(r, File(u));
            && LogOf(r'.filed) == m[|r.filed| + 1 := EventOf(|r.filed| + 1, u, r.clients[u].outbox[0])]
            && Disciplined(LogOf(r'.filed)) && ChangedOnlyAt(m, LogOf(r'.filed), x)
            && x in LogOf(r'.filed) && LogOf(r'.filed)[x].userId == u
            && r'.clients[u].outbox == [] && UserInStep(r', u)
  {
    var c := r.clients[u];
    var e := EventOf(|r.filed| + 1, u, c.outbox[0]);
    assert c.outbox == [c.outbox[0]];
    FiledLog(r.filed, e);
    x := AuthorFiles(LogOf(r.filed), |r.filed| + 1, u, CaughtUp(r, u), c.outbox[0]);
    WatchFiled(c.widget, u, r.filed, e, c.heard);
  }

  lemma StepKeeps(r: Room, a: Action, users: set<int>)
    requires InStep(r, users)
    requires a.Press? && a.userId in users && a.userId in r.clients ==> Settled(r, a.userId)
    requires a.File? ==> a.userId in users
    ensures InStep(Step(r, a), users)
  {
    if a.userId in r.clients {
      match a
      case Press(u, click) => PressKeeps(r, u, click, users);
      case File(u) => FileKeeps(r, u, users);
      case Hear(u) => HearKeeps(r, u, users);
    }
  }

  lemma StepClients(r: Room, a: Action)
    ensures Step(r, a).clients.Keys == r.clients.Keys
    ensures a.userId !in r.clients ==> Step(r, a) == r
  {
  }

  lemma {:induction false} PlayKeeps(r: Room, actions: seq<Action>, users: set<int>)
    requires InStep(r, users) && r.clients.Keys <= users && Patient(r, actions)
    ensures InStep(Play(r, actions), users) && Play(r, actions).clients.Keys == r.clients.Keys
  {
    if actions != [] {
      var pre, a := actions[..|actions| - 1], actions[|actions| - 1];
      PatientPrefix(r, actions);
      PlayKeeps(r, pre, users);
      StepClients(Play(r, pre), a);
      if a.userId in r.clients { StepKeeps(Play(r, pre), a, users); }
    }
  }

  lemma PatientPrefix(r: Room, actions: seq<Action>)
    requires actions != [] && Patient(r, actions)
    ensures Patient(r, actions[..|actions| - 1])
    ensures var pre, a := actions[..|actions| - 1], actions[|actions| - 1];
            a.Press? && a.userId in r.clients ==> Settled(Play(r, pre), a.userId)
  {
    var pre := actions[..|actions| - 1];
    assert forall i :: 0 <= i < |pre| ==> pre[i] == actions[i] && pre[..i] == actions[..i];
  }

  /* ---------- the buttons ---------- */

  lemma OpenedInStep(users: set<int>)
    ensures InStep(Opened(users), users) && Opened(users).clients.Keys == users
  {
    assert ActiveKeys(map[]) == {};
  }

  /** However the presses, filings and deliveries of patient users interleave:
      each canvas is the server's picture as of the last broadcast heard, and the
      stacks of a user with nothing in flight are right about the whole log, also
      about the part not heard yet: the drawn stack is exactly the user's visible
      drawings, each number on the undone stack is a hidden drawing whose one
      counting undo the redo map names, and the two join into one rising list. */
  lemma {:induction false} ButtonsStayInStep(users: set<int>, actions: seq<Action>, u: int)
    requires u in users && Patient(Opened(users), actions)
    ensures var r := Play(Opened(users), actions);
            && u in r.clients && r.clients[u].heard <= |r.filed|
            && Shows(r.clients[u].widget.view, LogOf(r.filed[..r.clients[u].heard]))
            && (Settled(r, u) ==> Agrees(LogOf(r.filed), u, r.clients[u].widget))
  {
    OpenedInStep(users);
    PlayKeeps(Opened(users), actions, users);
    var r := Play(Opened(users), actions);
    if Settled(r, u) { SettledStacks(r, u, users); }
  }

  lemma SettledStacks(r: Room, u: int, users: set<int>)
    requires InStep(r, users) && u in users && Settled(r, u)
    ensures SameStacks(r.clients[u].widget, CaughtUp(r, u))
    ensures Agrees(LogOf(r.filed), u, r.clients[u].widget)
  {
    assert UserInStep(r, u);
    WatchOthers(r.clients[u].widget, u, r.filed, r.clients[u].heard, |r.filed|);
  }

  ghost function OwnActive(m: Log, u: int): set<int> {
    set s | s in ActiveKeys(m) && m[s].userId == u
  }

  ghost function OwnVisible(r: Room, u: int): set<int> {
    OwnActive(LogOf(r.filed), u)
  }

  lemma OwnIsDrawn(m: Log, u: int, w: Widget)
    requires Agrees(m, u, w)
    ensures forall s :: s in OwnActive(m, u) <==> s in w.drawn
  {
  }

  /** The last drawn number is the greatest of the user's visible drawings. */
  lemma LatestIsLast(m: Log, u: int, w: Widget)
    requires Agrees(m, u, w)
    ensures OwnActive(m, u) == {} <==> w.drawn == []
    ensures w.drawn != [] ==> MaxOr(OwnActive(m, u), 0) == w.drawn[|w.drawn| - 1]
  {
    OwnIsDrawn(m, u, w);
    var all := w.drawn + Reverse(w.undone);
    if w.drawn == [] {
      forall s ensures s !in OwnActive(m, u) { assert s in OwnActive(m, u) <==> s in w.drawn; }
    } else {
      var x := w.drawn[|w.drawn| - 1];
      assert x in w.drawn && all[|w.drawn| - 1] == x;
      forall s | s in w.drawn ensures s <= x {
        var i :| 0 <= i < |w.drawn| && w.drawn[i] == s;
        assert all[i] == s;
      }
    }
  }

  /** `u` presses nothing. */
  ghost predicate Quiet(u: int, actions: seq<Action>) {
    forall i :: 0 <= i < |actions| ==> !(actions[i].Press? && actions[i].userId == u)
  }

  ghost predicate OnlyUndosWait(c: Client) {
    forall i :: 0 <= i < |c.outbox| ==> c.outbox[i].kind == Undo
  }

  /** While a user presses nothing, filing and hearing their undos leaves where
      their stacks are heading as it was. */
  lemma StackKept(r: Room, a: Action, u: int)
    requires u in r.clients && r.clients[u].heard <= |r.filed| && OnlyUndosWait(r.clients[u])
    requires !(a.Press? && a.userId == u)
    ensures var c, c' := r.clients[u], Step(r, a).clients[u];
            && c'.heard <= |Step(r, a).filed| && OnlyUndosWait(c')
            && CaughtUp(Step(r, a), u).drawn == CaughtUp(r, u).drawn
            && CaughtUp(Step(r, a), u).undone == CaughtUp(r, u).undone
            && (c'.outbox == c.outbox || (c.outbox != [] && c'.outbox == c.outbox[1..]))
            && (c'.outbox == c.outbox ==> CaughtUp(Step(r, a), u).redoOf == CaughtUp(r, u).redoOf)
  {
    var c := r.clients[u];
    if a.userId in r.clients {
      match a
      case File(v) => FileKeepsStack(r, v, u);
      case Hear(v) =>
        if v == u && c.heard < |r.filed| {
          WatchFirst(c.widget, Step(r, a).clients[u].widget, u, r.filed, c.heard, |r.filed|);
        }
      case Press(_, _) =>
    }
  }

  lemma FileKeepsStack(r: Room, v: int, u: int)
    requires u in r.clients && r.clients[u].heard <= |r.filed| && OnlyUndosWait(r.clients[u]) && v in r.clients
    ensures r.clients[u].heard <= |Step(r, File(v)).filed|
    ensures CaughtUp(Step(r, File(v)), u).drawn == CaughtUp(r, u).drawn
    ensures CaughtUp(Step(r, File(v)), u).undone == CaughtUp(r, u).undone
    ensures v != u || r.clients[u].outbox == [] ==> CaughtUp(Step(r, File(v)), u).redoOf == CaughtUp(r, u).redoOf
  {
    if r.clients[v].outbox != [] {
      var e := EventOf(|r.filed| + 1, v, r.clients[v].outbox[0]);
      WatchFiled(r.clients[u].widget, u, r.filed, e, r.clients[u].heard);
    }
  }

  /** After any such run the stack is where it was heading, and at most one undo waits. */
  lemma {:induction false} StacksKept(r: Room, actions: seq<Action>, u: int, users: set<int>)
    requires InStep(r, users) && r.clients.Keys <= users && Patient(r, actions) && Quiet(u, actions)
    requires u in r.clients && OnlyUndosWait(r.clients[u]) && |r.clients[u].outbox| <= 1
    ensures var r' := Play(r, actions);
            && InStep(r', users) && r'.clients.Keys == r.clients.Keys && OnlyUndosWait(r'.clients[u])
            && CaughtUp(r', u).drawn == CaughtUp(r, u).drawn && CaughtUp(r', u).undone == CaughtUp(r, u).undone
            && (r'.clients[u].outbox == r.clients[u].outbox || r'.clients[u].outbox == [])
            && (r'.clients[u].outbox == r.clients[u].outbox ==> CaughtUp(r', u).redoOf == CaughtUp(r, u).redoOf)
  {
    PlayKeeps(r, actions, users);
    if actions != [] {
      var pre, a := actions[..|actions| - 1], actions[|actions| - 1];
      PatientPrefix(r, actions);
      assert Quiet(u, pre) by { assert forall i :: 0 <= i < |pre| ==> pre[i] == actions[i]; }
      StacksKept(r, pre, u, users);
      StackKept(Play(r, pre), a, u);
    }
  }

  /** A press of Undo or Redo by a settled user moves the stacks that the log agrees with. */
  lemma SettledPress(r: Room, u: int, click: Click, users: set<int>)
    requires InStep(r, users) && u in users && Settled(r, u)
    ensures var w, r' := r.clients[u].widget, Step(r, Press(u, click));
            && Agrees(LogOf(r.filed), u, w) && InStep(r', users)
            && r'.filed == r.filed && r'.clients.Keys == r.clients.Keys
            && r'.clients[u] == r.clients[u].(widget := AfterClick(w, click).0, outbox := AfterClick(w, click).1)
            && SameStacks(CaughtUp(r', u), AfterClick(w, click).0)
  {
    PressKeeps(r, u, click, users);
    SettledStacks(r, u, users);
    var c := r.clients[u];
    WatchOthers(AfterClick(c.widget, click).0, u, r.filed, c.heard, |r.filed|);
  }

  /** What a redo sends names an undo event, never a hidden drawing. */
  lemma RedoSendsUndo(m: Log, u: int, w0: Widget, w: Widget, x: int)
    requires Agrees(m, u, w0) && AfterClick(w0, PressRedo) == (w, [Message(Undo, UndoPayload(x))])
    ensures x !in w.undone
  {
    var y := w0.undone[|w0.undone| - 1];
    assert [Message(Undo, UndoPayload(x))][0].payload.targetSeq == Some(x);
    assert y in w0.undone && Hidden(m, u, w0.redoOf, y);
    assert m[x].kind == Undo;
    forall z | z in w.undone ensures z != x {
      assert z in w0.undone && Hidden(m, u, w0.redoOf, z);
    }
  }

  /** While the undo of `x` waits to be filed, `x` is still visible, and it is all
      that filing will hide. */
  lemma UndoWaits(m: Log, n: int, u: int, w: Widget, x: int)
    requires Follows(m, u, w, [Message(Undo, UndoPayload(x))]) && Above(m, n)
    requires w.undone != [] && w.undone[|w.undone| - 1] == x
    ensures Active(m, x) && m[x].userId == u && OwnActive(m, u) - {x} == set s | s in w.drawn
    ensures var m' := m[n := EventOf(n, u, Message(Undo, UndoPayload(x)))];
            ActiveKeys(m') == ActiveKeys(m) - {x} && OnlyUndo(m', n, x)
  {
    var outbox := [Message(Undo, UndoPayload(x))];
    var w0, click :| Agrees(m, u, w0) && AfterClick(w0, click) == (w, outbox);
    assert outbox[0].payload.targetSeq == Some(x);
    assert x in w.undone;
    if click.PressRedo? { RedoSendsUndo(m, u, w0, w, x); }
    assert x in w0.drawn;
    HideOne(m, n, EventOf(n, u, outbox[0]), x);
    TopIsAlone(w0.drawn, w0.undone);
    OwnIsDrawn(m, u, w0);
    forall s ensures s in OwnActive(m, u) - {x} <==> s in w.drawn {}
  }

  /** Undo hides the latest visible drawing of a settled user and nothing else,
      whatever others have in flight: until the undo is filed the drawing stays
      visible, filing it hides that drawing alone, and from then on the user's
      visible drawings are the earlier ones. With none left nothing is sent. */
  lemma UndoHidesLatest(users: set<int>, actions: seq<Action>, u: int, later: seq<Action>)
    requires u in users && Patient(Opened(users), actions) && Settled(Play(Opened(users), actions), u)
    requires Quiet(u, later) && Patient(Step(Play(Opened(users), actions), Press(u, PressUndo)), later)
    ensures var r := Play(Opened(users), actions);
            var s := Step(r, Press(u, PressUndo));
            if OwnVisible(r, u) == {} then s == r else UndoneSince(r, u, Play(s, later))
  {
    OpenedInStep(users);
    PlayKeeps(Opened(users), actions, users);
    UndoAfter(Play(Opened(users), actions), u, users, later);
  }

  lemma UndoAfter(r: Room, u: int, users: set<int>, later: seq<Action>)
    requires InStep(r, users) && r.clients.Keys <= users && u in users && Settled(r, u)
    requires Quiet(u, later) && Patient(Step(r, Press(u, PressUndo)), later)
    ensures u in Play(Step(r, Press(u, PressUndo)), later).clients
    ensures OwnVisible(r, u) == {} ==> Step(r, Press(u, PressUndo)) == r
    ensures OwnVisible(r, u) != {} ==> UndoneSince(r, u, Play(Step(r, Press(u, PressUndo)), later))
  {
    SettledPress(r, u, PressUndo, users);
    LatestIsLast(LogOf(r.filed), u, r.clients[u].widget);
    StacksKept(Step(r, Press(u, PressUndo)), later, u, users);
    if OwnVisible(r, u) == {} {
      NothingSent(r, u, PressUndo);
    } else {
      UndoneLater(r, u, users, Play(Step(r, Press(u, PressUndo)), later));
    }
  }

  /** A press that changes no stack and sends nothing changes nothing. */
  lemma NothingSent(r: Room, u: int, click: Click)
    requires u in r.clients && AfterClick(r.clients[u].widget, click) == (r.clients[u].widget, [])
    ensures Step(r, Press(u, click)) == r
  {
    assert r.clients[u].outbox + [] == r.clients[u].outbox;
    assert r.clients[u := r.clients[u]] == r.clients;
  }

  /** `t` comes after `u` pressed Undo in `r`: until the undo is filed the latest
      own drawing is still visible and filing hides it alone; afterwards the own
      drawings are the earlier ones. */
  ghost predicate UndoneSince(r: Room, u: int, t: Room) {
    && u in t.clients
    && var x := MaxOr(OwnVisible(r, u), 0);
       if t.clients[u].outbox == [] then OwnVisible(t, u) == OwnVisible(r, u) - {x}
       else && OwnVisible(t, u) == OwnVisible(r, u)
            && ActiveKeys(LogOf(Step(t, File(u)).filed)) == ActiveKeys(LogOf(t.filed)) - {x}
  }

  lemma UndoneLater(r: Room, u: int, users: set<int>, t: Room)
    requires InStep(r, users) && InStep(t, users) && u in users && u in t.clients && Settled(r, u)
    requires OwnVisible(r, u) != {} && r.clients[u].widget.drawn != []
    requires var w, x := ClickUndo(r.clients[u].widget).0, MaxOr(OwnVisible(r, u), 0);
             && CaughtUp(t, u).drawn == w.drawn && CaughtUp(t, u).undone == w.undone
             && (t.clients[u].outbox == [] || t.clients[u].outbox == [Message(Undo, UndoPayload(x))])
    ensures UndoneSince(r, u, t)
  {
    SettledStacks(r, u, users);
    LatestIsLast(LogOf(r.filed), u, r.clients[u].widget);
    assert UserInStep(t, u);
    UndoneFrom(LogOf(r.filed), r.clients[u].widget, t, u);
  }

  lemma UndoneFrom(m: Log, w: Widget, t: Room, u: int)
    requires FiledInOrder(t.filed) && u in t.clients && t.clients[u].heard <= |t.filed| && UserInStep(t, u)
    requires Agrees(m, u, w) && w.drawn != []
    requires CaughtUp(t, u).drawn == ClickUndo(w).0.drawn && CaughtUp(t, u).undone == ClickUndo(w).0.undone
    requires var outbox := t.clients[u].outbox;
             outbox == [] || outbox == [Message(Undo, UndoPayload(w.drawn[|w.drawn| - 1]))]
    ensures var x := w.drawn[|w.drawn| - 1];
            if t.clients[u].outbox == [] then OwnVisible(t, u) == OwnActive(m, u) - {x}
            else && OwnVisible(t, u) == OwnActive(m, u)
                 && ActiveKeys(LogOf(Step(t, File(u)).filed)) == ActiveKeys(LogOf(t.filed)) - {x}
  {
    LogOfHas(t.filed);
    UndoneOwn(m, u, w, LogOf(t.filed), |t.filed| + 1, CaughtUp(t, u), t.clients[u].outbox);
    if t.clients[u].outbox != [] {
      FiledLog(t.filed, EventOf(|t.filed| + 1, u, t.clients[u].outbox[0]));
    }
  }

  /** The same about the logs before the press and later on. */
  lemma UndoneOwn(m: Log, u: int, w: Widget, m': Log, n: int, w': Widget, outbox: seq<Message>)
    requires Agrees(m, u, w) && w.drawn != [] && Follows(m', u, w', outbox) && Above(m', n)
    requires w'.drawn == ClickUndo(w).0.drawn && w'.undone == ClickUndo(w).0.undone
    requires outbox == [] || outbox == [Message(Undo, UndoPayload(w.drawn[|w.drawn| - 1]))]
    ensures var x := w.drawn[|w.drawn| - 1];
            if outbox == [] then OwnActive(m', u) == OwnActive(m, u) - {x}
            else && OwnActive(m', u) == OwnActive(m, u) && Active(m', x)
                 && ActiveKeys(m'[n := EventOf(n, u, outbox[0])]) == ActiveKeys(m') - {x}
  {
    var x := w.drawn[|w.drawn| - 1];
    OwnIsDrawn(m, u, w);
    TopIsAlone(w.drawn, w.undone);
    assert x in w.drawn;
    if outbox == [] {
      OwnIsDrawn(m', u, w');
    } else {
      UndoWaits(m', n, u, w', x);
      forall s ensures s in OwnActive(m', u) <==> s in OwnActive(m, u) {
        assert s in OwnActive(m', u) - {x} <==> s in w'.drawn;
      }
    }
  }

  /** While the redo of `x` waits to be filed, `x` is still hidden, and it is all
      that filing will show. */
  lemma RedoWaits(m: Log, n: int, u: int, w: Widget, x: int, k: int)
    requires Follows(m, u, w, [UndoOf(k)]) && Above(m, n)
    requires w.drawn != [] && w.drawn[|w.drawn| - 1] == x && x in w.redoOf && w.redoOf[x] == k
    ensures forall s :: s in OwnActive(m, u) <==> s in w.drawn[..|w.drawn| - 1]
    ensures x !in OwnActive(m, u)
    ensures ActiveKeys(m[n := EventOf(n, u, UndoOf(k))]) == ActiveKeys(m) + {x}
  {
    var w0, click :| Agrees(m, u, w0) && AfterClick(w0, click) == (w, [UndoOf(k)]);
    assert [UndoOf(k)][0].payload.targetSeq == Some(k) && Targets(m[k], x);
    if click.PressUndo? { UndoSendsDrawing(m, u, w0, w, k); }
    assert x in w0.undone && Hidden(m, u, w0.redoOf, x);
    assert w.drawn[..|w.drawn| - 1] == w0.drawn;
    ShowOne(m, n, EventOf(n, u, UndoOf(k)), k, x);
    OwnIsDrawn(m, u, w0);
    assert !Active(m, x);
  }

  /** What an undo sends names a drawing, never an undo event. */
  lemma UndoSendsDrawing(m: Log, u: int, w0: Widget, w: Widget, k: int)
    requires Agrees(m, u, w0) && AfterClick(w0, PressUndo) == (w, [UndoOf(k)])
    ensures k in m && m[k].kind != Undo
  {
    assert [UndoOf(k)][0].payload.targetSeq == Some(k);
    assert w0.drawn[|w0.drawn| - 1] in w0.drawn;
  }

  /** `t` comes after `u` pressed Redo in `r` with `x` on top of the undone stack:
      until the event is filed `x` is still hidden and filing shows it alone;
      afterwards the own drawings are the earlier ones and `x`. */
  ghost predicate RedoneSince(r: Room, u: int, x: int, t: Room) {
    && u in t.clients && x !in OwnVisible(r, u)
    && if t.clients[u].outbox == [] then OwnVisible(t, u) == OwnVisible(r, u) + {x}
       else && OwnVisible(t, u) == OwnVisible(r, u)
            && ActiveKeys(LogOf(Step(t, File(u)).filed)) == ActiveKeys(LogOf(t.filed)) + {x}
  }

  lemma RedoneFrom(m: Log, w: Widget, t: Room, u: int)
    requires FiledInOrder(t.filed) && u in t.clients && t.clients[u].heard <= |t.filed| && UserInStep(t, u)
    requires Agrees(m, u, w) && w.undone != [] && w.undone[|w.undone| - 1] in w.redoOf
    requires var x := w.undone[|w.undone| - 1];
             && CaughtUp(t, u).drawn == w.drawn + [x]
             && (t.clients[u].outbox == [] || (t.clients[u].outbox == [UndoOf(w.redoOf[x])] &&
                   CaughtUp(t, u).redoOf == w.redoOf))
    ensures var x := w.undone[|w.undone| - 1];
            if t.clients[u].outbox == [] then OwnVisible(t, u) == OwnActive(m, u) + {x}
            else && OwnVisible(t, u) == OwnActive(m, u)
                 && ActiveKeys(LogOf(Step(t, File(u)).filed)) == ActiveKeys(LogOf(t.filed)) + {x}
  {
    var x, m', w' := w.undone[|w.undone| - 1], LogOf(t.filed), CaughtUp(t, u);
    OwnIsDrawn(m, u, w);
    LogOfHas(t.filed);
    if t.clients[u].outbox == [] {
      OwnIsDrawn(m', u, w');
    } else {
      RedoWaits(m', |t.filed| + 1, u, w', x, w.redoOf[x]);
      assert w'.drawn[..|w'.drawn| - 1] == w.drawn;
      FiledLog(t.filed, EventOf(|t.filed| + 1, u, UndoOf(w.redoOf[x])));
    }
  }

  /** A redo by any settled user, however many undos and redos came before. */
  lemma RedoneAfter(r: Room, u: int, users: set<int>, later: seq<Action>)
    requires InStep(r, users) && r.clients.Keys <= users && u in users && Settled(r, u)
    requires Quiet(u, later) && Patient(Step(r, Press(u, PressRedo)), later)
    ensures var undone := r.clients[u].widget.undone;
            if undone == [] then Step(r, Press(u, PressRedo)) == r
            else RedoneSince(r, u, undone[|undone| - 1], Play(Step(r, Press(u, PressRedo)), later))
  {
    var w, m := r.clients[u].widget, LogOf(r.filed);
    SettledPress(r, u, PressRedo, users);
    if w.undone == [] {
      NothingSent(r, u, PressRedo);
    } else {
      RedoSends(m, u, w);
      TopIsHidden(m, u, w);
      StacksKept(Step(r, Press(u, PressRedo)), later, u, users);
      var t := Play(Step(r, Press(u, PressRedo)), later);
      assert UserInStep(t, u);
      RedoneFrom(m, w, t, u);
    }
  }

  lemma TopIsHidden(m: Log, u: int, w: Widget)
    requires Agrees(m, u, w) && w.undone != []
    ensures w.undone[|w.undone| - 1] !in OwnActive(m, u)
  {
    assert w.undone[|w.undone| - 1] in w.undone;
    assert Hidden(m, u, w.redoOf, w.undone[|w.undone| - 1]);
  }

  /** What the server's log says of the user's presses: the drawings their undos
      hid and no redo has brought back since their last drawing, the last one last. */
  ghost function LastHidden(r: Room, actions: seq<Action>, u: int): seq<int> {
    if actions == [] then []
    else
      var pre := actions[..|actions| - 1];
      NextHidden(Play(r, pre), actions[|actions| - 1], u, LastHidden(r, pre, u))
  }

  ghost function NextHidden(r: Room, a: Action, u: int, hidden: seq<int>): seq<int> {
    if !a.Press? || a.userId != u then hidden
    else
      match a.click
      case DrawShape(kind, _) => if kind == Undo then hidden else []
      case PressUndo => if OwnVisible(r, u) == {} then hidden else hidden + [MaxOr(OwnVisible(r, u), 0)]
      case PressRedo => if hidden == [] then [] else hidden[..|hidden| - 1]
  }

  /** The undone stack is that list in every run of patient users. */
  lemma {:induction false} UndoneIsLastHidden(users: set<int>, actions: seq<Action>, u: int)
    requires u in users && Patient(Opened(users), actions)
    ensures var r := Play(Opened(users), actions);
            u in r.clients && r.clients[u].widget.undone == LastHidden(Opened(users), actions, u)
  {
    OpenedInStep(users);
    if actions != [] {
      var pre := actions[..|actions| - 1];
      PatientPrefix(Opened(users), actions);
      PlayKeeps(Opened(users), pre, users);
      UndoneIsLastHidden(users, pre, u);
      UndoneStep(Play(Opened(users), pre), actions[|actions| - 1], u, users);
    }
  }

  lemma UndoneStep(r: Room, a: Action, u: int, users: set<int>)
    requires InStep(r, users) && u in users && u in r.clients && (a.Press? && a.userId == u ==> Settled(r, u))
    ensures u in Step(r, a).clients
    ensures Step(r, a).clients[u].widget.undone == NextHidden(r, a, u, r.clients[u].widget.undone)
  {
    if a.Press? && a.userId == u {
      SettledStacks(r, u, users);
      LatestIsLast(LogOf(r.filed), u, r.clients[u].widget);
      PressedUndone(r, u, a.click);
    } else {
      OthersKeepUndone(r, a, u);
    }
  }

  lemma PressedUndone(r: Room, u: int, click: Click)
    requires u in r.clients && (OwnVisible(r, u) == {} <==> r.clients[u].widget.drawn == [])
    requires var drawn := r.clients[u].widget.drawn;
             drawn != [] ==> MaxOr(OwnVisible(r, u), 0) == drawn[|drawn| - 1]
    ensures AfterClick(r.clients[u].widget, click).0.undone ==
            NextHidden(r, Press(u, click), u, r.clients[u].widget.undone)
  {
  }

  lemma OthersKeepUndone(r: Room, a: Action, u: int)
    requires u in r.clients && !(a.Press? && a.userId == u)
    ensures u in Step(r, a).clients && Step(r, a).clients[u].widget.undone == r.clients[u].widget.undone
  {
  }

  /** Redo restores exactly the last one hidden, whatever came before and whatever
      others have in flight: until it is filed that drawing stays hidden, filing
      shows it and nothing else. With none left to restore nothing is sent. */
  lemma RedoRestoresLastHidden(users: set<int>, actions: seq<Action>, u: int, later: seq<Action>)
    requires u in users && Patient(Opened(users), actions) && Settled(Play(Opened(users), actions), u)
    requires Quiet(u, later) && Patient(Step(Play(Opened(users), actions), Press(u, PressRedo)), later)
    ensures var r, hidden := Play(Opened(users), actions), LastHidden(Opened(users), actions, u);
            var s := Step(r, Press(u, PressRedo));
            if hidden == [] then s == r else RedoneSince(r, u, hidden[|hidden| - 1], Play(s, later))
  {
    OpenedInStep(users);
    PlayKeeps(Opened(users), actions, users);
    UndoneIsLastHidden(users, actions, u);
    RedoneAfter(Play(Opened(users), actions), u, users, later);
  }

  /* ---------- redo, heard or not ---------- */

  function UndoOf(x: int): Message {
    Message(Undo, UndoPayload(x))
  }

  /** Some undo numbered above `base` is the one that hides `x`. */
  ghost predicate HiddenSince(m: Log, x: int, base: int) {
    exists n :: n > base && OnlyUndo(m, n, x)
  }

  /** The log while the user's undo of `x` is waiting, and once it is filed; `own`
      are the drawings visible before, and `stray` names an older undo of `x`. */
  ghost predicate Undoing(m: Log, u: int, x: int, base: int, own: set<int>, pending: bool, stray: Option<int>) {
    && x in own && x in m && m[x].kind != Undo && m[x].userId == u
    && (pending ==> Active(m, x))
    && (!pending ==> HiddenSince(m, x, base))
    && OwnActive(m, u) == (if pending then own else own - {x})
    && (stray.Some? ==> stray.value <= base && stray.value in m && Targets(m[stray.value], x))
  }

  lemma OthersFileMeanwhile(m: Log, m': Log, y: int, u: int, x: int, base: int, own: set<int>, pending: bool,
                            stray: Option<int>)
    requires Undoing(m, u, x, base, own, pending, stray)
    requires ChangedOnlyAt(m, m', y) && y in m' && m'[y].userId != u
    ensures Undoing(m', u, x, base, own, pending, stray)
  {
    forall s ensures s in OwnActive(m', u) <==> s in OwnActive(m, u) {
      if s != y { assert Active(m', s) <==> Active(m, s); }
    }
    assert x in m' && m'[x] == m[x];
    if !pending {
      var n :| n > base && OnlyUndo(m, n, x);
      assert OnlyUndo(m', n, x);
    }
  }

  /** Filing the waiting undo. */
  lemma UndoIsFiled(m: Log, n: int, u: int, x: int, base: int, own: set<int>, stray: Option<int>)
    requires Undoing(m, u, x, base, own, true, stray) && Above(m, n) && n > base && Disciplined(m)
    ensures var m' := m[n := EventOf(n, u, UndoOf(x))];
            && Undoing(m', u, x, base, own, false, stray)
            && Disciplined(m') && ChangedOnlyAt(m, m', x) && x in m' && m'[x].userId == u
  {
    var e := EventOf(n, u, UndoOf(x));
    HideOne(m, n, e, x);
    DisciplinedAppend(m, n, e);
    assert OnlyUndo(m[n := e], n, x);
  }

  /** Filing an undo of the older undo after that: it shows nothing. */
  lemma StrayIsFiled(m: Log, n: int, u: int, x: int, base: int, own: set<int>, k: int)
    requires Undoing(m, u, x, base, own, false, Some(k)) && Above(m, n) && Disciplined(m)
    ensures var m' := m[n := EventOf(n, u, UndoOf(k))];
            && Undoing(m', u, x, base, own, false, None)
            && Disciplined(m') && ChangedOnlyAt(m, m', n) && n in m' && m'[n].userId == u
  {
    var e := EventOf(n, u, UndoOf(k));
    var h :| h > base && OnlyUndo(m, h, x);
    assert !Effective(m, k);
    UselessUndo(m, n, e, k);
    DisciplinedAppend(m, n, e);
    assert OnlyUndo(m[n := e], h, x);
  }

  /** From the press of Undo on, while its user presses nothing: `w` is the widget
      just after the press and `n` the undo's number, or 0 while it waits. */
  ghost predicate Between(r: Room, u: int, x: int, base: int, own: set<int>, stray: Option<int>, w: Widget, n: nat) {
    && u in r.clients && base <= |r.filed|
    && Undoing(LogOf(r.filed), u, x, base, own, n == 0, stray)
    && r.clients[u].outbox == (if n == 0 then [UndoOf(x)] else [])
    && (n != 0 ==> base < n <= |r.filed| && r.filed[n - 1].userId == u)
    && OwnUnheard(r, u, n)
    && (n == 0 || r.clients[u].heard < n ==> SameStacks(r.clients[u].widget, w))
  }

  ghost predicate OwnUnheard(r: Room, u: int, n: nat)
    requires u in r.clients
  {
    forall i :: r.clients[u].heard <= i < |r.filed| && r.filed[i].userId == u ==> i + 1 == n
  }

  lemma BetweenStep(r: Room, a: Action, users: set<int>, u: int, x: int, base: int, own: set<int>, stray: Option<int>,
                    w: Widget, n: nat)
    returns (n': nat)
    requires InStep(r, users) && r.clients.Keys <= users && Between(r, u, x, base, own, stray, w, n)
    requires !(a.Press? && a.userId == u)
    ensures Between(Step(r, a), u, x, base, own, stray, w, n')
  {
    n' := n;
    if a.userId in r.clients {
      match a
      case Press(_, _) => BetweenAside(r, Step(r, a), u, x, base, own, stray, w, n);
      case Hear(v) =>
        if v == u { BetweenHear(r, u, x, base, own, stray, w, n); }
        else { BetweenAside(r, Step(r, a), u, x, base, own, stray, w, n); }
      case File(v) => n' := BetweenFile(r, v, users, u, x, base, own, stray, w, n);
    }
  }

  lemma BetweenAside(r: Room, r': Room, u: int, x: int, base: int, own: set<int>, stray: Option<int>, w: Widget, n: nat)
    requires Between(r, u, x, base, own, stray, w, n)
    requires r'.filed == r.filed && u in r'.clients && r'.clients[u] == r.clients[u]
    ensures Between(r', u, x, base, own, stray, w, n)
  {
  }

  lemma BetweenHear(r: Room, u: int, x: int, base: int, own: set<int>, stray: Option<int>, w: Widget, n: nat)
    requires Between(r, u, x, base, own, stray, w, n)
    ensures Between(Step(r, Hear(u)), u, x, base, own, stray, w, n)
  {
    var c, r' := r.clients[u], Step(r, Hear(u));
    if c.heard < |r.filed| {
      assert OwnUnheard(r', u, n);
      if c.heard + 1 != n {
        assert r.filed[c.heard].userId != u;
        assert SameStacks(r'.clients[u].widget, c.widget);
      }
    }
  }

  lemma BetweenFile(r: Room, v: int, users: set<int>, u: int, x: int, base: int, own: set<int>, stray: Option<int>,
                    w: Widget, n: nat)
    returns (n': nat)
    requires InStep(r, users) && v in users && v in r.clients && Between(r, u, x, base, own, stray, w, n)
    ensures Between(Step(r, File(v)), u, x, base, own, stray, w, n')
  {
    n' := n;
    if r.clients[v].outbox != [] {
      if v == u {
        n' := |r.filed| + 1;
        BetweenOwnFile(r, u, x, base, own, stray, w, n);
      } else {
        assert UserInStep(r, v);
        var y := OwnFile(r, v);
        BetweenOthersFile(r, v, y, u, x, base, own, stray, w, n);
      }
    }
  }

  lemma BetweenOwnFile(r: Room, u: int, x: int, base: int, own: set<int>, stray: Option<int>, w: Widget, n: nat)
    requires FiledInOrder(r.filed) && Between(r, u, x, base, own, stray, w, n) && r.clients[u].outbox != []
    ensures Between(Step(r, File(u)), u, x, base, own, stray, w, |r.filed| + 1)
  {
    FiledLog(r.filed, EventOf(|r.filed| + 1, u, UndoOf(x)));
    UndoIsFiled(LogOf(r.filed), |r.filed| + 1, u, x, base, own, stray);
    assert OwnUnheard(Step(r, File(u)), u, |r.filed| + 1);
  }

  lemma BetweenOthersFile(r: Room, v: int, y: int, u: int, x: int, base: int, own: set<int>, stray: Option<int>,
                          w: Widget, n: nat)
    requires Between(r, u, x, base, own, stray, w, n) && v in r.clients && v != u && r.clients[v].outbox != []
    requires var m' := LogOf(Step(r, File(v)).filed);
             ChangedOnlyAt(LogOf(r.filed), m', y) && y in m' && m'[y].userId == v
    ensures Between(Step(r, File(v)), u, x, base, own, stray, w, n)
  {
    var r' := Step(r, File(v));
    OthersFileMeanwhile(LogOf(r.filed), LogOf(r'.filed), y, u, x, base, own, n == 0, stray);
    assert OwnUnheard(r', u, n);
  }

  lemma {:induction false} BetweenRun(r: Room, actions: seq<Action>, users: set<int>, u: int, x: int, base: int,
                                      own: set<int>, stray: Option<int>, w: Widget)
    returns (n: nat)
    requires InStep(r, users) && r.clients.Keys <= users && Patient(r, actions) && Quiet(u, actions)
    requires Between(r, u, x, base, own, stray, w, 0)
    ensures Between(Play(r, actions), u, x, base, own, stray, w, n)
  {
    if actions == [] {
      n := 0;
    } else {
      var pre, a := actions[..|actions| - 1], actions[|actions| - 1];
      PatientPrefix(r, actions);
      assert Quiet(u, pre) by { assert forall i :: 0 <= i < |pre| ==> pre[i] == actions[i]; }
      PlayKeeps(r, pre, users);
      var before := BetweenRun(r, pre, users, u, x, base, own, stray, w);
      n := BetweenStep(Play(r, pre), a, users, u, x, base, own, stray, w, before);
    }
  }

  /** After a redo pressed too soon: everyone else in step, the user's undo and
      perhaps a stray undo of an older undo still to be filed. */
  ghost predicate Missed(r: Room, users: set<int>, u: int, x: int, base: int, own: set<int>, pending: bool,
                         stray: Option<int>) {
    && InStep(r, users - {u}) && u in r.clients && base <= |r.filed|
    && Undoing(LogOf(r.filed), u, x, base, own, pending, stray)
    && r.clients[u].outbox == (if pending then [UndoOf(x)] else [])
          + (if stray.Some? then [UndoOf(stray.value)] else [])
  }

  lemma MissedStep(r: Room, a: Action, users: set<int>, u: int, x: int, base: int, own: set<int>, pending: bool,
                   stray: Option<int>)
    returns (pending': bool, stray': Option<int>)
    requires Missed(r, users, u, x, base, own, pending, stray) && r.clients.Keys <= users
    requires a.Press? && a.userId in r.clients ==> a.userId != u && Settled(r, a.userId)
    ensures Missed(Step(r, a), users, u, x, base, own, pending', stray')
  {
    pending', stray' := pending, stray;
    if a.userId in r.clients {
      if a == File(u) {
        if r.clients[u].outbox != [] {
          if pending {
            MissedFilesUndo(r, users, u, x, base, own, stray);
            pending' := false;
          } else {
            MissedFilesStray(r, users, u, x, base, own, stray.value);
            stray' := None;
          }
        }
      } else if a.File? && r.clients[a.userId].outbox != [] {
        MissedOthersFile(r, a.userId, users, u, x, base, own, pending, stray);
      } else {
        StepKeeps(r, a, users - {u});
      }
    }
  }

  lemma MissedOthersFile(r: Room, v: int, users: set<int>, u: int, x: int, base: int, own: set<int>, pending: bool,
                         stray: Option<int>)
    requires Missed(r, users, u, x, base, own, pending, stray) && r.clients.Keys <= users
    requires v in r.clients && v != u && r.clients[v].outbox != []
    ensures Missed(Step(r, File(v)), users, u, x, base, own, pending, stray)
  {
    StepKeeps(r, File(v), users - {u});
    assert UserInStep(r, v);
    var y := OwnFile(r, v);
    OthersFileMeanwhile(LogOf(r.filed), LogOf(Step(r, File(v)).filed), y, u, x, base, own, pending, stray);
  }

  lemma MissedFilesUndo(r: Room, users: set<int>, u: int, x: int, base: int, own: set<int>, stray: Option<int>)
    requires Missed(r, users, u, x, base, own, true, stray)
    ensures Missed(Step(r, File(u)), users, u, x, base, own, false, stray)
  {
    LogOfHas(r.filed);
    UndoIsFiled(LogOf(r.filed), |r.filed| + 1, u, x, base, own, stray);
    FilesAside(r, users, u, UndoOf(x), x);
  }

  lemma MissedFilesStray(r: Room, users: set<int>, u: int, x: int, base: int, own: set<int>, k: int)
    requires Missed(r, users, u, x, base, own, false, Some(k))
    ensures Missed(Step(r, File(u)), users, u, x, base, own, false, None)
  {
    LogOfHas(r.filed);
    StrayIsFiled(LogOf(r.filed), |r.filed| + 1, u, x, base, own, k);
    FilesAside(r, users, u, UndoOf(k), |r.filed| + 1);
  }

  /** The others stay in step when a user who is out of step files an event. */
  lemma FilesAside(r: Room, users: set<int>, u: int, message: Message, y: int)
    requires InStep(r, users - {u}) && u in r.clients && r.clients[u].outbox != [] && r.clients[u].outbox[0] == message
    requires var m := LogOf(r.filed);
             var m' := m[|r.filed| + 1 := EventOf(|r.filed| + 1, u, message)];
             Disciplined(m') && ChangedOnlyAt(m, m', y) && y in m' && m'[y].userId == u
    ensures var r' := Step(r, File(u));
            && InStep(r', users - {u}) && |r'.filed| == |r.filed| + 1
            && u in r'.clients && r'.clients[u].outbox == r.clients[u].outbox[1..]
            && LogOf(r'.filed) == LogOf(r.filed)[|r.filed| + 1 := EventOf(|r.filed| + 1, u, message)]
  {
    FiledLog(r.filed, EventOf(|r.filed| + 1, u, message));
    OthersKeep(r, u, y, users - {u});
    assert users - {u} - {u} == users - {u};
  }

  lemma {:induction false} MissedRun(r: Room, actions: seq<Action>, users: set<int>, u: int, x: int, base: int,
                                     own: set<int>, pending: bool, stray: Option<int>)
    returns (pending': bool, stray': Option<int>)
    requires Missed(r, users, u, x, base, own, pending, stray) && r.clients.Keys <= users
    requires Patient(r, actions) && Quiet(u, actions)
    ensures Play(r, actions).clients.Keys == r.clients.Keys
    ensures Missed(Play(r, actions), users, u, x, base, own, pending', stray')
  {
    pending', stray' := pending, stray;
    if actions != [] {
      var pre, a := actions[..|actions| - 1], actions[|actions| - 1];
      PatientPrefix(r, actions);
      assert Quiet(u, pre) by { assert forall i :: 0 <= i < |pre| ==> pre[i] == actions[i]; }
      pending', stray' := MissedRun(r, pre, users, u, x, base, own, pending, stray);
      StepClients(Play(r, pre), a);
      pending', stray' := MissedStep(Play(r, pre), a, users, u, x, base, own, pending', stray');
    }
  }

  /** The state right after a settled user's press of Undo. */
  lemma BetweenStarts(r: Room, u: int, users: set<int>)
    requires InStep(r, users) && u in users && Settled(r, u) && OwnVisible(r, u) != {}
    ensures var w, s := r.clients[u].widget, Step(r, Press(u, PressUndo));
            var x := MaxOr(OwnVisible(r, u), 0);
            && InStep(s, users) && s.clients.Keys == r.clients.Keys
            && Agrees(LogOf(r.filed), u, w) && w.drawn != [] && x == w.drawn[|w.drawn| - 1]
            && OnlyUndosWait(s.clients[u]) && |s.clients[u].outbox| == 1
            && SameStacks(CaughtUp(s, u), ClickUndo(w).0)
            && Between(s, u, x, |r.filed|, OwnVisible(r, u), Stray(w, x), ClickUndo(w).0, 0)
  {
    var w, m := r.clients[u].widget, LogOf(r.filed);
    SettledPress(r, u, PressUndo, users);
    LatestIsLast(m, u, w);
    var x := w.drawn[|w.drawn| - 1];
    assert x in w.drawn;
    assert UserInStep(r, u);
    if x in w.redoOf {
      assert MapSound(m, w.redoOf);
      LogOfHas(r.filed);
    }
    assert OwnVisible(r, u) == OwnActive(m, u);
  }

  /** The undo that the redo map still names for `x` from an earlier round. */
  function Stray(w: Widget, x: int): Option<int> {
    if x in w.redoOf then Some(w.redoOf[x]) else None
  }

  /** With stacks that agree with the log a redo always finds its undo. */
  lemma RedoSends(m: Log, u: int, w: Widget)
    requires Agrees(m, u, w) && w.undone != []
    ensures var x, (w', sent) := w.undone[|w.undone| - 1], AfterClick(w, PressRedo);
            x in w.redoOf && w'.drawn == w.drawn + [x] && sent == [UndoOf(w.redoOf[x])]
  {
    var x := w.undone[|w.undone| - 1];
    assert x in w.undone && Hidden(m, u, w.redoOf, x);
  }

  /** Redo before the undo has come back. */
  lemma RedoTooEarly(s: Room, u: int, users: set<int>, after: seq<Action>, x: int, base: int, own: set<int>, w: Widget,
                     n: nat)
    requires InStep(s, users) && s.clients.Keys <= users && u in users && !Settled(s, u)
    requires w.drawn != [] && w.drawn[|w.drawn| - 1] == x
    requires Between(s, u, x, base, own, Stray(w, x), ClickUndo(w).0, n)
    requires Quiet(u, after) && Patient(Step(s, Press(u, PressRedo)), after)
    ensures var t := Play(Step(s, Press(u, PressRedo)), after);
            t.clients.Keys == s.clients.Keys && (t.clients[u].outbox == [] ==> OwnVisible(t, u) == own - {x})
  {
    var s2 := Step(s, Press(u, PressRedo));
    EarlyPress(s, u, users, x, base, own, w, n);
    var pending, left := MissedRun(s2, after, users, u, x, base, own, n == 0, Stray(w, x));
  }

  lemma SettledWhenHeard(s: Room, u: int, x: int, base: int, own: set<int>, stray: Option<int>, w: Widget, n: nat)
    requires Between(s, u, x, base, own, stray, w, n)
    ensures Settled(s, u) <==> n != 0 && s.clients[u].heard >= n
  {
    if n != 0 && s.clients[u].heard < n { assert s.filed[n - 1].userId == u; }
  }

  lemma EarlyPress(s: Room, u: int, users: set<int>, x: int, base: int, own: set<int>, w: Widget, n: nat)
    requires InStep(s, users) && !Settled(s, u) && w.drawn != [] && w.drawn[|w.drawn| - 1] == x
    requires Between(s, u, x, base, own, Stray(w, x), ClickUndo(w).0, n)
    ensures var s2 := Step(s, Press(u, PressRedo));
            s2.clients.Keys == s.clients.Keys && Missed(s2, users, u, x, base, own, n == 0, Stray(w, x))
  {
    var c := s.clients[u];
    SettledWhenHeard(s, u, x, base, own, Stray(w, x), ClickUndo(w).0, n);
    assert InStep(s, users - {u});
    PressKeeps(s, u, PressRedo, users - {u});
    ClickStacks(c.widget, ClickUndo(w).0, PressRedo);
    EarlyRedoSends(w, x);
  }

  /** What a redo right after an undo sends: an undo of the older undo that the
      map still names, or nothing. */
  lemma EarlyRedoSends(w: Widget, x: int)
    requires w.drawn != [] && w.drawn[|w.drawn| - 1] == x
    ensures AfterClick(ClickUndo(w).0, PressRedo).1 == if x in w.redoOf then [UndoOf(w.redoOf[x])] else []
  {
  }

  /** With no older undo the number is then on neither stack. */
  lemma EarlyRedoForgets(m: Log, u: int, w: Widget)
    requires Agrees(m, u, w) && w.drawn != [] && w.drawn[|w.drawn| - 1] !in w.redoOf
    ensures var x, (w', sent) := w.drawn[|w.drawn| - 1], AfterClick(ClickUndo(w).0, PressRedo);
            sent == [] && x !in w'.drawn && x !in w'.undone
  {
    var x := w.drawn[|w.drawn| - 1];
    TopIsAlone(w.drawn, w.undone);
    forall y | y in w.undone ensures y != x {
      assert x in w.drawn && Hidden(m, u, w.redoOf, y);
    }
  }

  /** A redo restores the drawing that the last undo hid if and only if it is
      pressed after that undo's own broadcast has come back, whatever other users
      do in the meantime. Pressed earlier, it leaves the drawing hidden. */
  lemma RedoExact(users: set<int>, actions: seq<Action>, u: int, between: seq<Action>, after: seq<Action>)
    requires u in users && Patient(Opened(users), actions)
    requires var r := Play(Opened(users), actions);
             && Settled(r, u) && OwnVisible(r, u) != {}
             && Quiet(u, between) && Patient(Step(r, Press(u, PressUndo)), between)
    requires var s := Play(Step(Play(Opened(users), actions), Press(u, PressUndo)), between);
             && Quiet(u, after) && Patient(Step(s, Press(u, PressRedo)), after)
    ensures var r := Play(Opened(users), actions);
            var s := Play(Step(r, Press(u, PressUndo)), between);
            var t := Play(Step(s, Press(u, PressRedo)), after);
            var x := MaxOr(OwnVisible(r, u), 0);
            && u in t.clients
            && (t.clients[u].outbox == [] ==>
                  && (x in OwnVisible(t, u) <==> Settled(s, u))
                  && OwnVisible(t, u) == if Settled(s, u) then OwnVisible(r, u) else OwnVisible(r, u) - {x})
  {
    var r := Play(Opened(users), actions);
    OpenedInStep(users);
    PlayKeeps(Opened(users), actions, users);
    BetweenStarts(r, u, users);
    RedoAfter(r, u, users, between, after);
  }

  /** Redo after the undo has come back: a case of redo in general. */
  lemma RedoBack(s: Room, u: int, users: set<int>, after: seq<Action>, w: Widget, x: int)
    requires InStep(s, users) && s.clients.Keys <= users && u in users && Settled(s, u)
    requires w.drawn != [] && x == w.drawn[|w.drawn| - 1] && CaughtUp(s, u).undone == ClickUndo(w).0.undone
    requires Quiet(u, after) && Patient(Step(s, Press(u, PressRedo)), after)
    ensures RedoneSince(s, u, x, Play(Step(s, Press(u, PressRedo)), after))
  {
    SettledStacks(s, u, users);
    RedoneAfter(s, u, users, after);
  }

  lemma RedoAfter(r: Room, u: int, users: set<int>, between: seq<Action>, after: seq<Action>)
    requires InStep(r, users) && r.clients.Keys <= users && u in users && Settled(r, u) && OwnVisible(r, u) != {}
    requires Quiet(u, between) && Patient(Step(r, Press(u, PressUndo)), between)
    requires Quiet(u, after) && Patient(Step(Play(Step(r, Press(u, PressUndo)), between), Press(u, PressRedo)), after)
    ensures var s := Play(Step(r, Press(u, PressUndo)), between);
            RestoredIffHeard(r, u, s, Play(Step(s, Press(u, PressRedo)), after))
  {
    var s1 := Step(r, Press(u, PressUndo));
    var s := Play(s1, between);
    BetweenStarts(r, u, users);
    StacksKept(s1, between, u, users);
    if Settled(s, u) {
      UndoAfter(r, u, users, between);
      HeardRestores(r, u, users, s, after);
    } else {
      var w, x := r.clients[u].widget, MaxOr(OwnVisible(r, u), 0);
      var n := BetweenRun(s1, between, users, u, x, |r.filed|, OwnVisible(r, u), Stray(w, x), ClickUndo(w).0);
      RedoTooEarly(s, u, users, after, x, |r.filed|, OwnVisible(r, u), w, n);
      LatestVisible(r, u);
    }
  }

  /** `u` pressed Undo in `r` and Redo in `s`; in `t` all of it has been filed. */
  ghost predicate RestoredIffHeard(r: Room, u: int, s: Room, t: Room) {
    && u in t.clients && MaxOr(OwnVisible(r, u), 0) in OwnVisible(r, u)
    && (t.clients[u].outbox == [] ==>
          OwnVisible(t, u) == OwnVisible(r, u) - if Settled(s, u) then {} else {MaxOr(OwnVisible(r, u), 0)})
  }

  lemma LatestVisible(r: Room, u: int)
    requires OwnVisible(r, u) != {}
    ensures MaxOr(OwnVisible(r, u), 0) in OwnVisible(r, u)
  {
    MaxExists(OwnVisible(r, u));
  }

  lemma HeardRestores(r: Room, u: int, users: set<int>, s: Room, after: seq<Action>)
    requires OwnVisible(r, u) != {} && UndoneSince(r, u, s) && InStep(s, users) && s.clients.Keys <= users
    requires u in users && Settled(s, u) && u in r.clients && r.clients[u].widget.drawn != []
    requires var w := r.clients[u].widget;
             && w.drawn[|w.drawn| - 1] == MaxOr(OwnVisible(r, u), 0)
             && CaughtUp(s, u).undone == ClickUndo(w).0.undone
    requires Quiet(u, after) && Patient(Step(s, Press(u, PressRedo)), after)
    ensures RestoredIffHeard(r, u, s, Play(Step(s, Press(u, PressRedo)), after))
  {
    LatestVisible(r, u);
    RedoBack(s, u, users, after, r.clients[u].widget, MaxOr(OwnVisible(r, u), 0));
  }
}

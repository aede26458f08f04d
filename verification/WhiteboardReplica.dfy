/** A client's whiteboard as a value: the shapes on its canvas and its undo and
    redo stacks, and how clicks and server messages change them. */
module WhiteboardReplica {
  import opened Common
  import opened WhiteboardLog

  const BACKGROUND_KEY := -1

  datatype Item =
    | Shape(seqNum: int, kind: Kind, payload: Payload)
    | Background(image: string)

  /** `scene` is the stacking order of the canvas, `items` the index into it. */
  datatype View = View(scene: seq<Item>, items: map<int, Item>)

  datatype Widget = Widget(view: View, drawn: seq<int>, undone: seq<int>, redoOf: map<int, int>)

  datatype Broadcast = Broadcast(
    roomCode: string,
    seqNum: Option<int>,
    userId: int,
    kind: Kind,
    payload: Payload,
    activeEvents: Option<seq<Event>>)

  /** A snapshot text; `image` is what it decodes to, if it decodes at all. */
  datatype Encoded = Encoded(image: Option<string>)

  /** An absent or empty snapshot text is `None`. */
  datatype Sync = Sync(roomCode: string, snapshot: Option<Encoded>, events: seq<Event>)

  const EMPTY_VIEW := View([], map[])

  const EMPTY_WIDGET := Widget(EMPTY_VIEW, [], [], map[])

  /** Whether an event of this type and payload puts a shape on the canvas. */
  predicate Drawable(kind: Kind, payload: Payload) {
    match kind
    case Pen => |payload.points| >= 1
    case Eraser => |payload.points| >= 1
    case Rect => |payload.rect| == 4
    case Oval => |payload.rect| == 4
    case Text => payload.text != "" && |payload.textPos| == 2
    case Undo => false
  }

  function Without(scene: seq<Item>, item: Item): seq<Item> {
    if scene == [] then []
    else Without(scene[..|scene| - 1], item) + if scene[|scene| - 1] == item then [] else [scene[|scene| - 1]]
  }

  function RemoveItem(v: View, key: int): View {
    if key in v.items then View(Without(v.scene, v.items[key]), v.items - {key}) else v
  }

  function PutItem(v: View, key: int, item: Item): View {
    View(v.scene + [item], v.items[key := item])
  }

  /** A text that is no image is ignored. */
  function PutBackground(v: View, text: Encoded): View {
    if text.image.Some? then PutItem(v, BACKGROUND_KEY, Background(text.image.value)) else v
  }

  function ApplyEvent(v: View, seqNum: int, kind: Kind, payload: Payload): View {
    var cleared := RemoveItem(v, seqNum);
    if Drawable(kind, payload) then PutItem(cleared, seqNum, Shape(seqNum, kind, payload))
    else if kind == Undo && payload.targetSeq.Some? then RemoveItem(cleared, payload.targetSeq.value)
    else cleared
  }

  function ApplyAll(v: View, events: seq<Event>): View {
    if events == [] then v
    else
      var last := events[|events| - 1];
      ApplyEvent(ApplyAll(v, events[..|events| - 1]), last.seqNum, last.kind, last.payload)
  }

  /** Applying a broadcast for this room; the author also updates its stacks. */
  function Receive(w: Widget, roomCode: string, me: int, b: Broadcast): Widget {
    if b.roomCode != roomCode || b.seqNum.None? then w
    else
      var n := b.seqNum.value;
      var view := if b.kind == Undo && b.activeEvents.Some?
                  then ApplyAll(EMPTY_VIEW, b.activeEvents.value)
                  else ApplyEvent(w.view, n, b.kind, b.payload);
      if b.userId != me then w.(view := view)
      else if b.kind != Undo then w.(view := view, drawn := w.drawn + [n])
      else if b.payload.targetSeq.Some? then w.(view := view, redoOf := w.redoOf[b.payload.targetSeq.value := n])
      else w.(view := view)
  }

  function ApplySync(w: Widget, roomCode: string, s: Sync): Widget {
    if s.roomCode != roomCode then w
    else
      var base := if s.snapshot.Some? then PutBackground(EMPTY_VIEW, s.snapshot.value) else EMPTY_VIEW;
      EMPTY_WIDGET.(view := ApplyAll(base, s.events))
  }

  function FinishShape(w: Widget): Widget {
    w.(undone := [], redoOf := map[])
  }

  function UndoPayload(target: int): Payload {
    Payload(Some(target), [], [0, 0, 0, 0], "", [0, 0], "")
  }

  /** The undo button: the widget after the click and the event it sends. */
  function ClickUndo(w: Widget): (Widget, Option<Payload>) {
    if w.drawn == [] then (w, None)
    else
      var target := w.drawn[|w.drawn| - 1];
      (w.(drawn := w.drawn[..|w.drawn| - 1], undone := w.undone + [target]), Some(UndoPayload(target)))
  }

  /** The redo button: it undoes the undo that hid the shape. */
  function ClickRedo(w: Widget): (Widget, Option<Payload>) {
    if w.undone == [] then (w, None)
    else
      var target := w.undone[|w.undone| - 1];
      var popped := w.(undone := w.undone[..|w.undone| - 1]);
      if target in w.redoOf
      then (popped.(drawn := w.drawn + [target]), Some(UndoPayload(w.redoOf[target])))
      else (popped, None)
  }

  /* ---------- the canvas of a list of events ---------- */

  function Shapes(events: seq<Event>): seq<Item> {
    if events == [] then []
    else
      var last := events[|events| - 1];
      Shapes(events[..|events| - 1]) +
      if Drawable(last.kind, last.payload) then [Shape(last.seqNum, last.kind, last.payload)] else []
  }

  function ShapeIndex(events: seq<Event>): map<int, Item> {
    if events == [] then map[]
    else
      var last := events[|events| - 1];
      var rest := ShapeIndex(events[..|events| - 1]);
      if Drawable(last.kind, last.payload)
      then rest[last.seqNum := Shape(last.seqNum, last.kind, last.payload)] else rest
  }

  /** Exactly the drawable events among `events`, stacked in that order. */
  function ViewOf(events: seq<Event>): View {
    View(Shapes(events), ShapeIndex(events))
  }

  ghost predicate Rising(events: seq<Event>) {
    forall i, j :: 0 <= i < j < |events| ==> events[i].seqNum < events[j].seqNum
  }

  lemma {:induction false} IndexKeys(events: seq<Event>)
    ensures forall k :: k in ShapeIndex(events) ==> exists i :: 0 <= i < |events| && events[i].seqNum == k
  {
    if events != [] {
      var rest := events[..|events| - 1];
      IndexKeys(rest);
      forall k | k in ShapeIndex(events) ensures exists i :: 0 <= i < |events| && events[i].seqNum == k {
        if k in ShapeIndex(rest) {
          var i :| 0 <= i < |rest| && rest[i].seqNum == k;
          assert events[i].seqNum == k;
        } else {
          assert events[|events| - 1].seqNum == k;
        }
      }
    }
  }

  /** Replaying a list in order onto an empty canvas shows exactly that list. */
  lemma {:induction false} ReplayShowsList(events: seq<Event>)
    requires Rising(events)
    requires forall i :: 0 <= i < |events| ==> events[i].kind != Undo
    ensures ApplyAll(EMPTY_VIEW, events) == ViewOf(events)
  {
    if events != [] {
      var rest := events[..|events| - 1];
      ReplayShowsList(rest);
      IndexKeys(rest);
      assert events[|events| - 1].seqNum !in ShapeIndex(rest);
    }
  }

  lemma ActiveListRises(m: Log)
    requires WellKeyed(m)
    ensures Rising(ActiveList(m))
    ensures forall i :: 0 <= i < |ActiveList(m)| ==>
      ActiveList(m)[i].kind != Undo && ActiveList(m)[i].seqNum in m
  {
    var keys := Sorted(ActiveKeys(m));
    assert forall i :: 0 <= i < |keys| ==> keys[i] in keys;
  }

  /* ---------- convergence ---------- */

  /** What the server broadcasts after filing `e` under `n` in `m`. */
  ghost function BroadcastOf(roomCode: string, m: Log, n: int, e: Event): Broadcast {
    Broadcast(roomCode, Some(n), e.userId, e.kind, e.payload,
              if e.kind == Undo then Some(ActiveList(m[n := e])) else None)
  }

  /** The canvas shows the server's visible shapes in the server's order. */
  ghost predicate Shows(v: View, m: Log) {
    v == ViewOf(ActiveList(m))
  }

  lemma AppendActiveList(m: Log, n: int, e: Event)
    requires Above(m, n) && e.kind != Undo
    ensures ActiveList(m[n := e]) == ActiveList(m) + if Undone(m, n) then [] else [e]
  {
    AppendDraw(m, n, e);
    if Undone(m, n) {
      SameActiveList(m[n := e], m);
    } else {
      ListGrows(m, n, e);
    }
  }

  lemma ListGrows(m: Log, n: int, e: Event)
    requires Above(m, n) && ActiveKeys(m[n := e]) == ActiveKeys(m) + {n}
    ensures ActiveList(m[n := e]) == ActiveList(m) + [e]
  {
    SortedAppend(ActiveKeys(m), n);
    var keys := Sorted(ActiveKeys(m));
    assert forall i :: 0 <= i < |keys| ==> keys[i] in keys;
    PickGrows(m, n, e, keys);
  }

  lemma PickGrows(m: Log, n: int, e: Event, keys: seq<int>)
    requires n !in m && forall i :: 0 <= i < |keys| ==> keys[i] in m
    ensures forall i :: 0 <= i < |keys| + 1 ==> (keys + [n])[i] in m[n := e]
    ensures Pick(m[n := e], keys + [n]) == Pick(m, keys) + [e]
  {
    assert forall i :: 0 <= i < |keys| ==> (keys + [n])[i] == keys[i];
  }

  /** A broadcast keeps a converged canvas converged exactly when it is an
      undo, draws nothing, or is not already the target of a counting undo. */
  lemma ReceiveConverges(w: Widget, roomCode: string, me: int, m: Log, n: int, e: Event)
    requires Above(m, n) && WellKeyed(m) && e.seqNum == n && Shows(w.view, m)
    ensures Shows(Receive(w, roomCode, me, BroadcastOf(roomCode, m, n, e)).view, m[n := e])
       <==> e.kind == Undo || !Drawable(e.kind, e.payload) || !Undone(m, n)
  {
    if e.kind == Undo {
      UndoConverges(w, roomCode, me, m, n, e);
    } else {
      DrawConverges(w, roomCode, me, m, n, e);
    }
  }

  lemma UndoConverges(w: Widget, roomCode: string, me: int, m: Log, n: int, e: Event)
    requires Above(m, n) && WellKeyed(m) && e.seqNum == n && e.kind == Undo
    ensures Shows(Receive(w, roomCode, me, BroadcastOf(roomCode, m, n, e)).view, m[n := e])
  {
    var list := ActiveList(m[n := e]);
    ActiveListRises(m[n := e]);
    ReplayShowsList(list);
  }

  lemma DrawConverges(w: Widget, roomCode: string, me: int, m: Log, n: int, e: Event)
    requires Above(m, n) && WellKeyed(m) && e.seqNum == n && e.kind != Undo && Shows(w.view, m)
    ensures Shows(Receive(w, roomCode, me, BroadcastOf(roomCode, m, n, e)).view, m[n := e])
       <==> !Undone(m, n) || !Drawable(e.kind, e.payload)
  {
    AppendActiveList(m, n, e);
    FreshInView(m, n);
    ReceivedDraw(w, roomCode, me, m, n, e);
    ApplyExtends(ActiveList(m), e, Undone(m, n));
  }

  lemma ReceivedDraw(w: Widget, roomCode: string, me: int, m: Log, n: int, e: Event)
    requires e.kind != Undo
    ensures Receive(w, roomCode, me, BroadcastOf(roomCode, m, n, e)).view == ApplyEvent(w.view, n, e.kind, e.payload)
  {
  }

  lemma FreshInView(m: Log, n: int)
    requires Above(m, n) && WellKeyed(m)
    ensures n !in ShapeIndex(ActiveList(m))
  {
    ActiveListRises(m);
    IndexKeys(ActiveList(m));
  }

  lemma ApplyExtends(list: seq<Event>, e: Event, hidden: bool)
    requires e.kind != Undo && e.seqNum !in ShapeIndex(list)
    ensures ApplyEvent(ViewOf(list), e.seqNum, e.kind, e.payload) == ViewOf(list + if hidden then [] else [e])
       <==> !hidden || !Drawable(e.kind, e.payload)
  {
    assert (list + [e])[..|list|] == list;
    assert list + [] == list;
    assert ApplyEvent(ViewOf(list), e.seqNum, e.kind, e.payload) == ViewOf(list + [e]);
  }

  /** The numbers a room's events get: one after another from 1. */
  predicate NumberedFromOne(es: seq<Event>) {
    forall i :: 0 <= i < |es| ==> es[i].seqNum == i + 1
  }

  function LogOf(es: seq<Event>): Log {
    Extend(map[], 1, es)
  }

  lemma {:induction false} LogOfHas(es: seq<Event>)
    requires NumberedFromOne(es)
    ensures Above(LogOf(es), |es| + 1) && WellKeyed(LogOf(es))
  {
    if es != [] { LogOfHas(es[..|es| - 1]); }
  }

  /** A client that holds `w` when `first` events have been broadcast and then
      hears every broadcast up to the `last`-th. */
  ghost function Watch(w: Widget, roomCode: string, me: int, es: seq<Event>, first: nat, last: nat): Widget
    requires first <= last <= |es|
    decreases last
  {
    if first == last then w
    else Receive(Watch(w, roomCode, me, es, first, last - 1), roomCode, me,
                 BroadcastOf(roomCode, LogOf(es[..last - 1]), last, es[last - 1]))
  }

  /** The next event gets a number above the log, which no undo has reached yet. */
  lemma NextIsFresh(es: seq<Event>, last: nat)
    requires 0 < last <= |es| && NumberedFromOne(es) && BackwardTargets(LogOf(es))
    ensures var m := LogOf(es[..last - 1]);
            && Above(m, last) && WellKeyed(m) && !Undone(m, last)
            && es[last - 1].seqNum == last && LogOf(es[..last]) == m[last := es[last - 1]]
  {
    var m := LogOf(es[..last - 1]);
    LogOfHas(es[..last - 1]);
    assert es[..last][..last - 1] == es[..last - 1];
    PrefixBackward(es, last - 1);
    assert BackwardTargets(m);
  }

  lemma {:induction false} WatchConverges(w: Widget, roomCode: string, me: int, es: seq<Event>, first: nat, last: nat)
    requires first <= last <= |es| && NumberedFromOne(es) && BackwardTargets(LogOf(es))
    requires Shows(w.view, LogOf(es[..first]))
    ensures Shows(Watch(w, roomCode, me, es, first, last).view, LogOf(es[..last]))
    decreases last
  {
    if first != last {
      WatchConverges(w, roomCode, me, es, first, last - 1);
      NextIsFresh(es, last);
      ReceiveConverges(Watch(w, roomCode, me, es, first, last - 1), roomCode, me,
                       LogOf(es[..last - 1]), last, es[last - 1]);
    }
  }

  lemma {:induction false} PrefixBackward(es: seq<Event>, k: nat)
    requires k <= |es| && NumberedFromOne(es) && BackwardTargets(LogOf(es))
    ensures BackwardTargets(LogOf(es[..k]))
    decreases |es|
  {
    if k == |es| {
      assert es[..k] == es;
    } else {
      var pre := es[..|es| - 1];
      LogOfHas(pre);
      assert forall s :: s in LogOf(pre) ==> s in LogOf(es) && LogOf(es)[s] == LogOf(pre)[s];
      PrefixBackward(pre, k);
      assert pre[..k] == es[..k];
    }
  }

  /** A client that watched from the start and one that joined after `joined`
      events through a sync both show exactly the server's visible shapes, in
      the server's order, after every broadcast, whoever drew or undid what. */
  lemma ReplicasConverge(roomCode: string, early: int, late: int, lateBefore: Widget,
                         es: seq<Event>, joined: nat, now: nat)
    requires joined <= now <= |es| && NumberedFromOne(es) && BackwardTargets(LogOf(es))
    ensures var first := Watch(EMPTY_WIDGET, roomCode, early, es, 0, now);
            var synced := ApplySync(lateBefore, roomCode, Sync(roomCode, None, ActiveList(LogOf(es[..joined]))));
            var second := Watch(synced, roomCode, late, es, joined, now);
            Shows(first.view, LogOf(es[..now])) && second.view == first.view
  {
    assert es[..0] == [];
    assert ActiveKeys(map[]) == {};
    WatchConverges(EMPTY_WIDGET, roomCode, early, es, 0, now);
    var m := LogOf(es[..joined]);
    LogOfHas(es[..joined]);
    ActiveListRises(m);
    ReplayShowsList(ActiveList(m));
    var synced := ApplySync(lateBefore, roomCode, Sync(roomCode, None, ActiveList(m)));
    WatchConverges(synced, roomCode, late, es, joined, now);
  }

  /** Without the backward rule it fails: an undo of a number not yet given. */
  lemma ForwardUndoDiverges(undo: Event, draw: Event, roomCode: string, me: int)
    requires undo.seqNum == 1 && Targets(undo, 2)
    requires draw.seqNum == 2 && Drawable(draw.kind, draw.payload)
    ensures var w := Watch(EMPTY_WIDGET, roomCode, me, [undo, draw], 0, 2);
            !Shows(w.view, LogOf([undo, draw]))
  {
    var es := [undo, draw];
    var m: Log := map[1 := undo];
    assert es[..1] == [undo] && es[..0] == [] && [undo][..0] == [] && es[..2] == es;
    var one := [undo];
    assert one[..|one| - 1] == [];
    assert Extend(map[], 1, one[..|one| - 1]) == map[];
    assert Extend(map[], 1, one) == m;
    assert Effective(m, 1) && Undone(m, 2);
    assert ActiveKeys(m) == {} && ActiveList(m) == [];
    var w := Watch(EMPTY_WIDGET, roomCode, me, es, 0, 1);
    ReceiveConverges(EMPTY_WIDGET, roomCode, me, map[], 1, undo) by {
      assert ActiveKeys(map[]) == {};
    }
    assert Shows(w.view, m);
    ReceiveConverges(w, roomCode, me, m, 2, draw);
  }
}

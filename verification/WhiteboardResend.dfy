/** The broadcast of a refused resend: the server files nothing, but sends the
    resent event to everyone again under the number it reports. */
module WhiteboardResend {
  import opened Common
  import opened WhiteboardLog
  import opened WhiteboardBoard
  import opened WhiteboardReplica
  import opened WhiteboardShapes
  import WhiteboardRuns

  /** What the server broadcasts for a refused resend reported under `s`. */
  ghost function ResendOf(roomCode: string, m: Log, s: int, userId: int, kind: Kind, payload: Payload): Broadcast {
    Broadcast(roomCode, Some(s), userId, kind, payload, if kind == Undo then Some(ActiveList(m)) else None)
  }

  /** The broadcast when the resent event is the one filed under `s`. */
  ghost function SameAgain(roomCode: string, m: Log, s: int): Broadcast
    requires s in m
  {
    ResendOf(roomCode, m, s, m[s].userId, m[s].kind, m[s].payload)
  }

  /** The event has a shape on a canvas that shows the log. */
  ghost predicate Shown(m: Log, s: int) {
    Active(m, s) && Drawable(m[s].kind, m[s].payload)
  }

  ghost predicate OnTop(m: Log, s: int) {
    Shown(m, s) && forall t :: Shown(m, t) ==> t <= s
  }

  /** When applying an event of this type and payload under `s` changes nothing. */
  ghost predicate Harmless(m: Log, s: int, kind: Kind, payload: Payload) {
    || kind == Undo
    || (if Drawable(kind, payload) then OnTop(m, s) && m[s].kind == kind && m[s].payload == payload else !Shown(m, s))
  }

  /* ---------- the shapes of a log ---------- */

  /** A canvas that shows a log has a shape for exactly the shown events. */
  lemma ShownIsIndexed(m: Log)
    requires WellKeyed(m)
    ensures InOrder(ViewOf(ActiveList(m)))
    ensures forall s :: s in ShapeIndex(ActiveList(m)) <==> Shown(m, s)
    ensures forall s :: Shown(m, s) ==> ShapeIndex(ActiveList(m))[s] == Shape(s, m[s].kind, m[s].payload)
  {
    var list, keys := ActiveList(m), Sorted(ActiveKeys(m));
    ActiveListRises(m);
    ViewInOrder(list);
    IndexedFrom(list);
    assert forall i :: 0 <= i < |keys| ==> keys[i] in keys;
    forall s | s in ShapeIndex(list) ensures Shown(m, s) {
      assert ShapeFrom(list, s);
      var i :| 0 <= i < |list| && list[i].seqNum == s && Drawable(list[i].kind, list[i].payload);
      assert list[i] == m[keys[i]] && keys[i] == s;
    }
    forall s | Shown(m, s)
      ensures s in ShapeIndex(list) && ShapeIndex(list)[s] == Shape(s, m[s].kind, m[s].payload)
    {
      assert s in keys;
      var i :| 0 <= i < |keys| && keys[i] == s;
      assert list[i] == m[s];
      DrawableIndexed(list, i);
    }
  }

  /* ---------- applying an event again ---------- */

  /** Removing the top shape and putting it back. */
  lemma TopPutBack(v: View, x: Item)
    requires InOrder(v) && v.scene != [] && v.scene[|v.scene| - 1] == x && x.Shape?
    ensures PutItem(RemoveItem(v, x.seqNum), x.seqNum, x) == v
  {
    var init := v.scene[..|v.scene| - 1];
    assert x in v.scene;
    TopIsNew(v, x);
    WithoutTop(init, x);
    assert v.scene == init + [x];
    assert (v.items - {x.seqNum})[x.seqNum := x] == v.items;
  }

  lemma TopIsNew(v: View, x: Item)
    requires InOrder(v) && v.scene != [] && v.scene[|v.scene| - 1] == x
    ensures x !in v.scene[..|v.scene| - 1]
  {
    var init := v.scene[..|v.scene| - 1];
    forall i | 0 <= i < |init| ensures init[i] != x { assert v.scene[i].seqNum < x.seqNum; }
  }

  lemma WithoutTop(init: seq<Item>, x: Item)
    requires x !in init
    ensures Without(init + [x], x) == init
  {
    WithoutAbsent(init, x);
    assert (init + [x])[..|init|] == init;
  }

  /** Applying a drawing again leaves the canvas as it is exactly when it is the top shape. */
  lemma RedrawnExactly(v: View, s: int, kind: Kind, payload: Payload)
    requires InOrder(v) && Drawable(kind, payload)
    ensures ApplyEvent(v, s, kind, payload) == v <==>
      v.scene != [] && v.scene[|v.scene| - 1] == Shape(s, kind, payload)
  {
    var x := Shape(s, kind, payload);
    if v.scene != [] && v.scene[|v.scene| - 1] == x {
      TopPutBack(v, x);
    }
    if ApplyEvent(v, s, kind, payload) == v {
      assert v.scene == RemoveItem(v, s).scene + [x];
    }
  }

  lemma ClearedExactly(v: View, s: int)
    requires InOrder(v)
    ensures RemoveItem(v, s) == v <==> s !in v.items
  {
    if s in v.items { WithoutShorter(v.scene, v.items[s]); }
  }

  /** The top shape is the one with the greatest number. */
  lemma TopIsGreatest(v: View, x: Item)
    requires InOrder(v) && x.Shape?
    ensures v.scene != [] && v.scene[|v.scene| - 1] == x <==>
      x.seqNum in v.items && v.items[x.seqNum] == x && forall k :: k in v.items ==> k <= x.seqNum
  {
    if v.scene != [] && v.scene[|v.scene| - 1] == x {
      assert x in v.scene;
      forall k | k in v.items ensures k <= x.seqNum {
        var i :| 0 <= i < |v.scene| && v.scene[i] == v.items[k];
        assert i < |v.scene| - 1 ==> v.scene[i].seqNum < v.scene[|v.scene| - 1].seqNum;
      }
    }
    if x.seqNum in v.items && v.items[x.seqNum] == x && forall k :: k in v.items ==> k <= x.seqNum {
      var i :| 0 <= i < |v.scene| && v.scene[i] == x;
      var top := v.scene[|v.scene| - 1];
      assert top in v.scene && top.seqNum <= x.seqNum;
      assert i < |v.scene| - 1 ==> v.scene[i].seqNum < top.seqNum;
    }
  }

  lemma AppliedAgain(m: Log, s: int, kind: Kind, payload: Payload)
    requires WellKeyed(m) && kind != Undo
    ensures ApplyEvent(ViewOf(ActiveList(m)), s, kind, payload) == ViewOf(ActiveList(m))
       <==> Harmless(m, s, kind, payload)
  {
    var v := ViewOf(ActiveList(m));
    ShownIsIndexed(m);
    if Drawable(kind, payload) {
      RedrawnExactly(v, s, kind, payload);
      TopIsGreatest(v, Shape(s, kind, payload));
    } else {
      ClearedExactly(v, s);
    }
  }

  /* ---------- the theorems ---------- */

  /** A refused resend's broadcast keeps a converged canvas converged exactly when
      it is an undo, is the top shape drawn again, or draws nothing under a number
      that shows nothing. */
  lemma ResendConverges(w: Widget, roomCode: string, me: int, m: Log, s: int, userId: int, kind: Kind, payload: Payload)
    requires WellKeyed(m) && Shows(w.view, m)
    ensures Shows(Receive(w, roomCode, me, ResendOf(roomCode, m, s, userId, kind, payload)).view, m)
       <==> Harmless(m, s, kind, payload)
  {
    if kind == Undo {
      ActiveListRises(m);
      ReplayShowsList(ActiveList(m));
    } else {
      AppliedAgain(m, s, kind, payload);
    }
  }

  /** The same about the number the server reports: a retained event with the id,
      or, when all those have been pruned, the last number, which is another's. */
  lemma RefusedResendConverges<C>(w: Widget, roomCode: string, me: int, b: Board<C>, userId: int, kind: Kind,
                                  payload: Payload, id: Option<string>)
    requires WellKeyed(b.events) && Shows(w.view, b.events) && Refused(b, id)
    ensures var (b', s) := AddEvent(b, userId, kind, payload, id);
            && b' == b
            && (Shows(Receive(w, roomCode, me, ResendOf(roomCode, b.events, s, userId, kind, payload)).view, b.events)
                <==> Harmless(b.events, s, kind, payload))
            && (Holders(b.events, id) == {} ==> s == b.lastSeq)
  {
    var s := AddEvent(b, userId, kind, payload, id).1;
    ResendConverges(w, roomCode, me, b.events, s, userId, kind, payload);
    WhiteboardRuns.ExistingIs(b.events, b.lastSeq, id);
  }

  /** A faithful resend of a retained drawing: converged just when nothing newer is shown. */
  lemma FaithfulResendConverges(w: Widget, roomCode: string, me: int, m: Log, s: int)
    requires WellKeyed(m) && Shows(w.view, m) && s in m && m[s].kind != Undo
    ensures Shows(Receive(w, roomCode, me, SameAgain(roomCode, m, s)).view, m)
       <==> !Drawable(m[s].kind, m[s].payload) || OnTop(m, s)
  {
    ResendConverges(w, roomCode, me, m, s, m[s].userId, m[s].kind, m[s].payload);
  }

  /** In particular drawing an undone shape again always leaves the canvas wrong. */
  lemma UndoneResendDiverges(w: Widget, roomCode: string, me: int, m: Log, s: int)
    requires WellKeyed(m) && Shows(w.view, m) && s in m && Drawable(m[s].kind, m[s].payload) && Undone(m, s)
    ensures !Shows(Receive(w, roomCode, me, SameAgain(roomCode, m, s)).view, m)
  {
    FaithfulResendConverges(w, roomCode, me, m, s);
  }

  /** Whatever a resend did to a canvas, the next undo anyone files repairs it. */
  lemma NextUndoRepairs(w: Widget, roomCode: string, me: int, m: Log, n: int, e: Event)
    requires Above(m, n) && WellKeyed(m) && e.seqNum == n && e.kind == Undo
    ensures Shows(Receive(w, roomCode, me, BroadcastOf(roomCode, m, n, e)).view, m[n := e])
  {
    UndoConverges(w, roomCode, me, m, n, e);
  }
}

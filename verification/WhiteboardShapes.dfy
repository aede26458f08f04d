/** The shapes on a client's canvas: what one event, one broadcast and one sync do
    to them, told in the payload's own terms. */
module WhiteboardShapes {
  import opened Common
  import opened WhiteboardLog
  import opened WhiteboardReplica

  /* ---------- the shapes of a canvas ---------- */

  /** Scene and index hold the same shapes, the scene in the order of their numbers. */
  ghost predicate InOrder(v: View) {
    && (forall k :: k in v.items ==> v.items[k].Shape? && v.items[k].seqNum == k && v.items[k] in v.scene)
    && (forall x :: x in v.scene ==> x.Shape? && x.seqNum in v.items && v.items[x.seqNum] == x)
    && (forall i, j :: 0 <= i < j < |v.scene| ==> v.scene[i].seqNum < v.scene[j].seqNum)
  }

  /** The entry comes from a drawable event of that number. */
  ghost predicate ShapeFrom(events: seq<Event>, k: int) {
    exists i :: 0 <= i < |events| && events[i].seqNum == k && Drawable(events[i].kind, events[i].payload)
  }

  lemma {:induction false} IndexedFrom(events: seq<Event>)
    ensures forall k :: k in ShapeIndex(events) ==> ShapeFrom(events, k)
  {
    if events != [] {
      var pre, last := events[..|events| - 1], events[|events| - 1];
      IndexedFrom(pre);
      forall k | k in ShapeIndex(events) ensures ShapeFrom(events, k) {
        if k in ShapeIndex(pre) {
          var i :| 0 <= i < |pre| && pre[i].seqNum == k && Drawable(pre[i].kind, pre[i].payload);
          assert events[i] == pre[i];
        } else {
          assert events[|events| - 1].seqNum == k;
        }
      }
    }
  }

  lemma IndexBelow(events: seq<Event>, n: int)
    requires forall i :: 0 <= i < |events| ==> events[i].seqNum < n
    ensures forall k :: k in ShapeIndex(events) ==> k < n
  {
    IndexedFrom(events);
    forall k | k in ShapeIndex(events) ensures k < n {
      assert ShapeFrom(events, k);
    }
  }

  /** The canvas of a rising list is in order. */
  lemma {:induction false} ViewInOrder(events: seq<Event>)
    requires Rising(events)
    ensures InOrder(ViewOf(events))
  {
    if events != [] {
      var pre, last := events[..|events| - 1], events[|events| - 1];
      ViewInOrder(pre);
      IndexBelow(pre, last.seqNum);
      if Drawable(last.kind, last.payload) {
        OneMoreShape(ViewOf(pre), Shape(last.seqNum, last.kind, last.payload));
      }
    }
  }

  /** It holds the shape of each drawable event. */
  lemma {:induction false} DrawableIndexed(events: seq<Event>, i: nat)
    requires Rising(events) && i < |events| && Drawable(events[i].kind, events[i].payload)
    ensures events[i].seqNum in ShapeIndex(events)
    ensures ShapeIndex(events)[events[i].seqNum] == Shape(events[i].seqNum, events[i].kind, events[i].payload)
  {
    if i < |events| - 1 { DrawableIndexed(events[..|events| - 1], i); }
  }

  lemma OneMoreShape(v: View, x: Item)
    requires InOrder(v) && x.Shape? && forall k :: k in v.items ==> k < x.seqNum
    ensures InOrder(PutItem(v, x.seqNum, x))
  {
    var v' := PutItem(v, x.seqNum, x);
    forall y | y in v'.scene ensures y.Shape? && y.seqNum in v'.items && v'.items[y.seqNum] == y {
      if y in v.scene { assert y.seqNum in v.items; }
    }
    assert v'.scene[|v.scene|] == x;
    forall i | 0 <= i < |v.scene| ensures v'.scene[i].seqNum < x.seqNum {
      assert v.scene[i] in v.scene;
    }
  }

  /* ---------- removing an item ---------- */

  lemma {:induction false} WithoutAbsent(scene: seq<Item>, x: Item)
    requires x !in scene
    ensures Without(scene, x) == scene
  {
    if scene != [] {
      assert scene[|scene| - 1] in scene;
      WithoutAbsent(scene[..|scene| - 1], x);
    }
  }

  lemma {:induction false} WithoutShorter(scene: seq<Item>, x: Item)
    ensures |Without(scene, x)| <= |scene|
    ensures x in scene ==> |Without(scene, x)| < |scene|
  {
    if scene != [] { WithoutShorter(scene[..|scene| - 1], x); }
  }

  lemma {:induction false} WithoutHas(scene: seq<Item>, x: Item, y: Item)
    ensures y in Without(scene, x) <==> y in scene && y != x
  {
    if scene != [] {
      WithoutHas(scene[..|scene| - 1], x, y);
      assert scene == scene[..|scene| - 1] + [scene[|scene| - 1]];
    }
  }

  /* ---------- applying one event ---------- */

  /** What an event needs to leave a shape: points, four numbers, or a text and a place. */
  predicate HasShape(kind: Kind, payload: Payload) {
    || ((kind == Pen || kind == Eraser) && |payload.points| >= 1)
    || ((kind == Rect || kind == Oval) && |payload.rect| == 4)
    || (kind == Text && |payload.text| >= 1 && |payload.textPos| == 2)
  }

  /** Such an event's shape is on top of the canvas and indexed under its number. */
  lemma ShapeIsDrawn(v: View, n: int, kind: Kind, payload: Payload)
    requires HasShape(kind, payload)
    ensures var v' := ApplyEvent(v, n, kind, payload);
            && v'.scene != [] && v'.scene[|v'.scene| - 1] == Shape(n, kind, payload)
            && n in v'.items && v'.items[n] == Shape(n, kind, payload)
  {
  }

  /** After any other event no shape of its number is left. */
  lemma NoShapeIsDrawn(v: View, n: int, kind: Kind, payload: Payload)
    requires InOrder(v) && !HasShape(kind, payload)
    ensures var v' := ApplyEvent(v, n, kind, payload);
            n !in v'.items && forall x :: x in v'.scene ==> x.Shape? && x.seqNum != n
  {
    RemovalClears(v, n);
    if kind == Undo && payload.targetSeq.Some? {
      var cleared, target := RemoveItem(v, n), payload.targetSeq.value;
      if target in cleared.items {
        forall x | x in RemoveItem(cleared, target).scene ensures x.Shape? && x.seqNum != n {
          WithoutHas(cleared.scene, cleared.items[target], x);
        }
      }
    }
  }

  lemma RemovalClears(v: View, n: int)
    requires InOrder(v)
    ensures n !in RemoveItem(v, n).items
    ensures forall x :: x in RemoveItem(v, n).scene ==> x.Shape? && x.seqNum != n
    ensures forall x :: x in v.scene && x.Shape? && x.seqNum != n ==> x in RemoveItem(v, n).scene
  {
    if n in v.items {
      forall x ensures x in RemoveItem(v, n).scene <==> x in v.scene && x != v.items[n] {
        WithoutHas(v.scene, v.items[n], x);
      }
    }
  }

  /** An undo takes its target's shape away; no event touches any other shape. */
  lemma OnlyItsShapes(v: View, n: int, kind: Kind, payload: Payload, k: int)
    ensures kind == Undo && payload.targetSeq == Some(k) ==> k !in ApplyEvent(v, n, kind, payload).items
    ensures k != n && !(kind == Undo && payload.targetSeq == Some(k)) ==>
      var v' := ApplyEvent(v, n, kind, payload);
      (k in v'.items <==> k in v.items) && (k in v.items ==> v'.items[k] == v.items[k])
  {
  }

  /* ---------- one broadcast, one sync ---------- */

  /** A broadcast for another room, or without a number, changes nothing. */
  lemma OthersBroadcastsIgnored(w: Widget, roomCode: string, me: int, b: Broadcast)
    requires b.roomCode != roomCode || b.seqNum.None?
    ensures Receive(w, roomCode, me, b) == w
  {
  }

  /** What a broadcast of this room does: the canvas takes the event, or becomes the
      replay of the list an undo brings; the author's own stack or map records it. */
  lemma BroadcastIs(w: Widget, roomCode: string, me: int, b: Broadcast)
    requires b.roomCode == roomCode && b.seqNum.Some?
    ensures var w', n := Receive(w, roomCode, me, b), b.seqNum.value;
            && w'.view == (if b.kind == Undo && b.activeEvents.Some? then ApplyAll(EMPTY_VIEW, b.activeEvents.value)
                           else ApplyEvent(w.view, n, b.kind, b.payload))
            && w'.drawn == (if b.userId == me && b.kind != Undo then w.drawn + [n] else w.drawn)
            && w'.undone == w.undone
            && w'.redoOf == (if b.userId == me && b.kind == Undo && b.payload.targetSeq.Some?
                             then w.redoOf[b.payload.targetSeq.value := n] else w.redoOf)
  {
  }

  /** A sync of another room changes nothing; one of this room clears everything,
      and shows the image it brings at the bottom and its drawings in order above. */
  lemma SyncIs(w: Widget, roomCode: string, s: Sync)
    requires Rising(s.events) && forall i :: 0 <= i < |s.events| ==> s.events[i].kind != Undo && s.events[i].seqNum >= 1
    ensures s.roomCode != roomCode ==> ApplySync(w, roomCode, s) == w
    ensures s.roomCode == roomCode ==>
      var w', image := ApplySync(w, roomCode, s), if s.snapshot.Some? then s.snapshot.value.image else None;
      && w'.drawn == [] && w'.undone == [] && w'.redoOf == map[]
      && w'.view.scene == (if image.Some? then [Background(image.value)] else []) + Shapes(s.events)
      && (image.Some? ==> -1 in w'.view.items && w'.view.items[-1] == Background(image.value))
  {
    var image := if s.snapshot.Some? then s.snapshot.value.image else None;
    if image.Some? {
      var base := PutBackground(EMPTY_VIEW, s.snapshot.value);
      assert base.scene == [Background(image.value)] && base.items == map[-1 := Background(image.value)];
      ReplayOver(base, s.events);
    } else {
      ReplayOver(EMPTY_VIEW, s.events);
      assert [] + Shapes(s.events) == Shapes(s.events);
    }
  }

  /** Replaying drawings over a canvas without shapes stacks theirs on top. */
  lemma {:induction false} ReplayOver(base: View, events: seq<Event>)
    requires forall k :: k in base.items ==> k < 1
    requires Rising(events) && forall i :: 0 <= i < |events| ==> events[i].kind != Undo && events[i].seqNum >= 1
    ensures ApplyAll(base, events).scene == base.scene + Shapes(events)
    ensures forall k :: k in ApplyAll(base, events).items <==> k in base.items || k in ShapeIndex(events)
    ensures forall k :: k in base.items ==> ApplyAll(base, events).items[k] == base.items[k]
  {
    IndexedFrom(events);
    if events != [] {
      var pre, last := events[..|events| - 1], events[|events| - 1];
      ReplayOver(base, pre);
      IndexBelow(pre, last.seqNum);
      assert last.seqNum !in ApplyAll(base, pre).items;
      if Drawable(last.kind, last.payload) {
        var x := Shape(last.seqNum, last.kind, last.payload);
        assert base.scene + Shapes(pre) + [x] == base.scene + (Shapes(pre) + [x]);
      }
    }
  }
}

/** The client's whiteboard widget and the room page that feeds it server
    messages, as objects. A drawing signal is an out-parameter. */
module WhiteboardClient {
  import opened Common
  import opened WhiteboardLog
  import R = WhiteboardReplica

  class WhiteboardWidget {
    var drawn: seq<int>
    var undone: seq<int>
    var redoOf: map<int, int>
    var scene: seq<R.Item>
    var sceneItems: map<int, R.Item>

    ghost function View(): R.View
      reads this
    {
      R.View(scene, sceneItems)
    }

    ghost function State(): R.Widget
      reads this
    {
      R.Widget(View(), drawn, undone, redoOf)
    }

    constructor ()
      ensures State() == R.EMPTY_WIDGET
    {
      drawn, undone, redoOf, scene, sceneItems := [], [], map[], [], map[];
    }

    method OnShapeCompleted(tool: Kind, payload: Payload) returns (emitted: Option<(Kind, Payload)>)
      modifies this
      ensures State() == R.FinishShape(old(State())) && emitted == Some((tool, payload))
    {
      undone, redoOf := [], map[];
      emitted := Some((tool, payload));
    }

    method OnUndoClicked() returns (emitted: Option<(Kind, Payload)>)
      modifies this
      ensures State() == R.ClickUndo(old(State())).0
      ensures emitted == match R.ClickUndo(old(State())).1 case None => None case Some(p) => Some((Undo, p))
    {
      if drawn == [] { return None; }
      var target := drawn[|drawn| - 1];
      drawn := drawn[..|drawn| - 1];
      undone := undone + [target];
      emitted := Some((Undo, R.UndoPayload(target)));
    }

    method OnRedoClicked() returns (emitted: Option<(Kind, Payload)>)
      modifies this
      ensures State() == R.ClickRedo(old(State())).0
      ensures emitted == match R.ClickRedo(old(State())).1 case None => None case Some(p) => Some((Undo, p))
    {
      if undone == [] { return None; }
      var target := undone[|undone| - 1];
      undone := undone[..|undone| - 1];
      emitted := None;
      if target in redoOf {
        emitted := Some((Undo, R.UndoPayload(redoOf[target])));
        drawn := drawn + [target];
      }
    }

    method ClearAll()
      modifies this
      ensures State() == R.EMPTY_WIDGET
    {
      scene, sceneItems := [], map[];
      drawn, undone, redoOf := [], [], map[];
    }

    method RemoveItem(key: int)
      modifies this`scene, this`sceneItems
      ensures View() == R.RemoveItem(old(View()), key)
    {
      if key in sceneItems {
        var item := sceneItems[key];
        sceneItems := sceneItems - {key};
        scene := R.Without(scene, item);
      }
    }

    method ApplyEvent(seqNum: int, kind: Kind, payload: Payload)
      modifies this`scene, this`sceneItems
      ensures View() == R.ApplyEvent(old(View()), seqNum, kind, payload)
    {
      RemoveItem(seqNum);
      var item: Option<R.Item> := None;
      match kind {
        case Pen => if |payload.points| >= 1 { item := Some(R.Shape(seqNum, kind, payload)); }
        case Eraser => if |payload.points| >= 1 { item := Some(R.Shape(seqNum, kind, payload)); }
        case Rect => if |payload.rect| == 4 { item := Some(R.Shape(seqNum, kind, payload)); }
        case Oval => if |payload.rect| == 4 { item := Some(R.Shape(seqNum, kind, payload)); }
        case Text => if payload.text != "" && |payload.textPos| == 2 { item := Some(R.Shape(seqNum, kind, payload)); }
        case Undo => if payload.targetSeq.Some? { RemoveItem(payload.targetSeq.value); }
      }
      if item.Some? {
        scene := scene + [item.value];
        sceneItems := sceneItems[seqNum := item.value];
      }
    }

    method ReplaceEvents(events: seq<Event>)
      modifies this`scene, this`sceneItems
      ensures View() == R.ApplyAll(R.EMPTY_VIEW, events)
    {
      scene, sceneItems := [], map[];
      ApplyList(events);
    }

    method ApplyList(events: seq<Event>)
      modifies this`scene, this`sceneItems
      ensures View() == R.ApplyAll(old(View()), events)
    {
      var i := 0;
      while i < |events|
        invariant 0 <= i <= |events|
        invariant View() == R.ApplyAll(old(View()), events[..i])
      {
        assert events[..i + 1][..i] == events[..i];
        ApplyEvent(events[i].seqNum, events[i].kind, events[i].payload);
        i := i + 1;
      }
      assert events[..|events|] == events;
    }

    method RecordOwnDraw(seqNum: int)
      modifies this`drawn
      ensures drawn == old(drawn) + [seqNum]
    {
      drawn := drawn + [seqNum];
    }

    method RecordOwnUndo(target: int, undoSeq: int)
      modifies this`redoOf
      ensures redoOf == old(redoOf)[target := undoSeq]
    {
      redoOf := redoOf[target := undoSeq];
    }

    method ApplySnapshot(text: R.Encoded)
      modifies this`scene, this`sceneItems
      ensures View() == R.PutBackground(old(View()), text)
    {
      if text.image.Some? {
        var item := R.Background(text.image.value);
        scene := scene + [item];
        sceneItems := sceneItems[R.BACKGROUND_KEY := item];
      }
    }
  }

  class ScreenShareWidget {
    const roomCode: string
    const userId: int
    const board: WhiteboardWidget

    constructor (roomCode: string, userId: int, board: WhiteboardWidget)
      ensures this.roomCode == roomCode && this.userId == userId && this.board == board
    {
      this.roomCode, this.userId, this.board := roomCode, userId, board;
    }

    method OnDrawBroadcast(b: R.Broadcast)
      modifies board
      ensures board.State() == R.Receive(old(board.State()), roomCode, userId, b)
    {
      if b.roomCode != roomCode { return; }
      if b.seqNum.None? { return; }
      var n := b.seqNum.value;
      if b.kind == Undo && b.activeEvents.Some? {
        board.ReplaceEvents(b.activeEvents.value);
      } else {
        board.ApplyEvent(n, b.kind, b.payload);
      }
      if b.userId == userId {
        if b.kind == Undo {
          if b.payload.targetSeq.Some? {
            board.RecordOwnUndo(b.payload.targetSeq.value, n);
          }
        } else {
          board.RecordOwnDraw(n);
        }
      }
    }

    method OnWhiteboardSync(s: R.Sync)
      modifies board
      ensures board.State() == R.ApplySync(old(board.State()), roomCode, s)
    {
      if s.roomCode != roomCode { return; }
      board.ClearAll();
      if s.snapshot.Some? {
        board.ApplySnapshot(s.snapshot.value);
      }
      board.ApplyList(s.events);
    }
  }
}

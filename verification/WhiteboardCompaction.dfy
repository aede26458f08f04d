/** What compaction does to the picture: when pruning a saved snapshot keeps it,
    when it does not, and that over any number of compactions and reloads the
    board paints the whole history. */
module WhiteboardCompaction {
  import opened Common
  import opened WhiteboardLog
  import opened WhiteboardBoard
  import opened WhiteboardRuns

  /** Pruning after a snapshot leaves snapshot and retained events painting the
      same canvas, whatever was added since the cut, provided no undo that counts
      reaches across the cut. */
  lemma CompactionKeepsPicture<C(!new)>(w: Setting<C>, db: Tables<C>, ops: seq<Op>)
    requires NoRows(db, w.roomId) && Durable(ops)
    requires var r := Execute(w, db, ops); r.stage.Saved? && CleanCut(r.board.events, r.stage.cut)
    ensures Picture(w.paint, w.blank, Execute(w, db, ops + [PruneCut]).board, None)
         == Picture(w.paint, w.blank, Execute(w, db, ops).board, None)
  {
    PrunedPicture(w, db, ops);
    var r := Execute(w, db, ops);
    CleanCutPaints(w.paint, Background(r.board.snapshot, w.blank), r.board.events, r.stage.cut);
  }

  /** What a pruned board paints: the visible events up to the cut, as they stood
      when it was rendered, and then those of the rest of the log by itself. */
  lemma PrunedPicture<C(!new)>(w: Setting<C>, db: Tables<C>, ops: seq<Op>)
    requires NoRows(db, w.roomId) && Durable(ops) && Execute(w, db, ops).stage.Saved?
    ensures var r := Execute(w, db, ops);
            var upTo := ActiveList(UpTo(r.board.events, r.stage.cut));
            var shown := Render(w.paint, Background(r.board.snapshot, w.blank), upTo);
            Picture(w.paint, w.blank, Execute(w, db, ops + [PruneCut]).board, None)
              == Render(w.paint, shown, ActiveList(After(r.board.events, r.stage.cut)))
  {
    RunsAreSound(w, db, ops);
    assert (ops + [PruneCut])[..|ops|] == ops;
  }

  /** The painter that remembers everything it is shown. */
  function Trace(canvas: seq<Event>, e: Event): seq<Event> {
    canvas + [e]
  }

  lemma {:induction false} TraceRenders(canvas: seq<Event>, events: seq<Event>)
    ensures Render(Trace, canvas, events) == canvas + AnonymousList(events)
  {
    if events != [] {
      TraceRenders(canvas, events[..|events| - 1]);
    }
  }

  /** Exactly when pruning is harmless for every picture: a painter that remembers
      everything sees no change just when the cut is seamless. */
  lemma CompactionExact(w: Setting<seq<Event>>, db: Tables<seq<Event>>, ops: seq<Op>)
    requires NoRows(db, w.roomId) && Durable(ops) && w.paint == Trace && Execute(w, db, ops).stage.Saved?
    ensures var r := Execute(w, db, ops);
            Picture(w.paint, w.blank, Execute(w, db, ops + [PruneCut]).board, None)
              == Picture(w.paint, w.blank, r.board, None)
            <==> SeamlessCut(r.board.events, r.stage.cut)
  {
    RunsAreSound(w, db, ops);
    PrunedPicture(w, db, ops);
    var r := Execute(w, db, ops);
    var m, cut, base := r.board.events, r.stage.cut, Background(r.board.snapshot, w.blank);
    CutExact(m, cut);
    AllFrom(m, m);
    AllFrom(UpTo(m, cut), m);
    AllFrom(After(m, cut), m);
    TraceSplit(base, m, ActiveList(m), ActiveList(UpTo(m, cut)), ActiveList(After(m, cut)));
  }

  /** Each listed event is the log's event of its number. */
  ghost predicate From(events: seq<Event>, m: Log) {
    forall i :: 0 <= i < |events| ==> events[i].seqNum in m && m[events[i].seqNum] == events[i]
  }

  lemma AllFrom(part: Log, m: Log)
    requires WellKeyed(m) && forall k :: k in part ==> k in m && m[k] == part[k]
    ensures From(ActiveList(part), m)
  {
    var keys := Sorted(ActiveKeys(part));
    assert forall i :: 0 <= i < |keys| ==> keys[i] in keys;
  }

  lemma TraceSplit(base: seq<Event>, m: Log, whole: seq<Event>, lo: seq<Event>, hi: seq<Event>)
    requires From(whole, m) && From(lo, m) && From(hi, m)
    ensures Render(Trace, Render(Trace, base, lo), hi) == Render(Trace, base, whole) <==> whole == lo + hi
  {
    RenderConcat(Trace, base, lo, hi);
    TraceRenders(base, lo + hi);
    TraceRenders(base, whole);
    SameTail(base, AnonymousList(lo + hi), AnonymousList(whole));
    PlainTells(lo + hi, whole, m);
  }

  /** Events of one log are told apart without their client ids. */
  lemma PlainTells(a: seq<Event>, b: seq<Event>, m: Log)
    requires From(a, m) && From(b, m)
    ensures AnonymousList(a) == AnonymousList(b) <==> a == b
  {
    if AnonymousList(a) == AnonymousList(b) {
      assert |a| == |AnonymousList(a)| == |b|;
      forall i | 0 <= i < |a| ensures a[i] == b[i] {
        assert AnonymousList(a)[i].seqNum == a[i].seqNum && AnonymousList(b)[i].seqNum == b[i].seqNum;
      }
    }
  }

  lemma SameTail<T>(base: seq<T>, a: seq<T>, b: seq<T>)
    ensures base + a == base + b <==> a == b
  {
    assert a == (base + a)[|base|..] && b == (base + b)[|base|..];
  }

  /* ---------- what goes wrong ---------- */

  /** The first failing family: an undo that counts, added after the cut, of a
      drawing that the snapshot already shows. */
  lemma LateUndoIsLost(m: Log, cut: int, undo: int, drawing: int)
    requires drawing <= cut < undo && undo in m && Effective(m, undo) && Targets(m[undo], drawing)
    requires Active(UpTo(m, cut), drawing)
    ensures !SeamlessCut(m, cut)
  {
    assert drawing in m && !Active(m, drawing);
  }

  /** The second: an undo that counts, pruned with the cut, of a drawing added
      later, which the retained events by themselves show. */
  lemma ForwardUndoIsLost(m: Log, cut: int, undo: int, drawing: int)
    requires undo <= cut < drawing && undo in m && Effective(m, undo) && Targets(m[undo], drawing)
    requires Active(After(m, cut), drawing)
    ensures !SeamlessCut(m, cut)
  {
    assert drawing in m && !Active(m, drawing);
  }

  /** The number of the event that a fresh room's run adds as `op`. */
  function Added(op: Op, n: int): Event
    requires op.Add?
  {
    Event(n, op.userId, op.kind, op.payload, op.id)
  }

  /** A run that adds one event, snapshots it, and adds another before the prune. */
  function SnapshotBetween(first: Op, second: Op): seq<Op> {
    [first, TakeCut, RenderCut, SaveCut(true), second]
  }

  lemma RunStep<C>(w: Setting<C>, db: Tables<C>, ops: seq<Op>, op: Op)
    ensures Execute(w, db, ops + [op]) == Step(w, Execute(w, db, ops), op)
  {
    assert (ops + [op])[..|ops|] == ops;
  }

  /** One turn of the snapshot loop up to the save. */
  lemma SnapshotTurn<C>(w: Setting<C>, r: Run<C>)
    requires r.stage == Idle && r.board.lastSeq > r.board.lastSnapshotSeq
    ensures var r' := Step(w, Step(w, Step(w, r, TakeCut), RenderCut), SaveCut(true));
            r'.board == r.board && r'.stage.Saved? && r'.stage.cut == r.board.lastSeq
  {
  }

  lemma SnapshotBetweenSteps<C>(w: Setting<C>, db: Tables<C>, first: Op, second: Op)
    ensures var turn := Step(w, Step(w, Step(w, Step(w, Start(db), first), TakeCut), RenderCut), SaveCut(true));
            Execute(w, db, SnapshotBetween(first, second)) == Step(w, turn, second)
  {
    RunStep(w, db, [], first);
    RunStep(w, db, [first], TakeCut);
    RunStep(w, db, [first, TakeCut], RenderCut);
    RunStep(w, db, [first, TakeCut, RenderCut], SaveCut(true));
    RunStep(w, db, [first, TakeCut, RenderCut, SaveCut(true)], second);
    assert [] + [first] == [first] && [first] + [TakeCut] == [first, TakeCut];
    assert [first, TakeCut] + [RenderCut] == [first, TakeCut, RenderCut];
    assert [first, TakeCut, RenderCut] + [SaveCut(true)] == [first, TakeCut, RenderCut, SaveCut(true)];
    assert [first, TakeCut, RenderCut, SaveCut(true)] + [second] == SnapshotBetween(first, second);
  }

  lemma SnapshotBetweenIs<C>(w: Setting<C>, db: Tables<C>, first: Op, second: Op)
    requires first.Add? && second.Add? && first.id == None && second.id == None
    ensures var r := Execute(w, db, SnapshotBetween(first, second));
            && r.board.snapshot == None && r.stage.Saved? && r.stage.cut == 1
            && r.board.events == map[1 := Added(first, 1), 2 := Added(second, 2)]
  {
    SnapshotBetweenSteps(w, db, first, second);
    var r1 := Step(w, Start(db), first);
    AddStepIs(w, Start(db), first);
    SnapshotTurn(w, r1);
    AddStepIs(w, Step(w, Step(w, Step(w, r1, TakeCut), RenderCut), SaveCut(true)), second);
  }

  /** One such run: draw, snapshot, undo before the prune. The board shows nothing;
      after the prune the drawing is back. */
  lemma LateUndoExample<C(!new)>(w: Setting<C>, db: Tables<C>, draw: Op, undo: Op)
    requires NoRows(db, w.roomId) && draw.Add? && undo.Add? && draw.id == None && undo.id == None
    requires draw.kind != Undo && undo.kind == Undo && undo.payload.targetSeq == Some(1)
    ensures var ops := SnapshotBetween(draw, undo);
            && Picture(w.paint, w.blank, Execute(w, db, ops).board, None) == w.blank
            && Picture(w.paint, w.blank, Execute(w, db, ops + [PruneCut]).board, None)
               == w.paint(w.blank, Added(draw, 1))
  {
    var ops := SnapshotBetween(draw, undo);
    SnapshotBetweenIs(w, db, draw, undo);
    assert Durable(ops);
    PrunedPicture(w, db, ops);
    LateLog(Added(draw, 1), Added(undo, 2));
    PaintsOne(w.paint, w.blank, Added(draw, 1));
  }

  /** The other: undo of the next number, snapshot, draw before the prune. The
      server hides the drawing until the prune, and shows it from then on. */
  lemma ForwardUndoExample<C(!new)>(w: Setting<C>, db: Tables<C>, undo: Op, draw: Op)
    requires NoRows(db, w.roomId) && draw.Add? && undo.Add? && draw.id == None && undo.id == None
    requires draw.kind != Undo && undo.kind == Undo && undo.payload.targetSeq == Some(2)
    ensures var ops := SnapshotBetween(undo, draw);
            && Picture(w.paint, w.blank, Execute(w, db, ops).board, None) == w.blank
            && Picture(w.paint, w.blank, Execute(w, db, ops + [PruneCut]).board, None)
               == w.paint(w.blank, Added(draw, 2))
  {
    var ops := SnapshotBetween(undo, draw);
    SnapshotBetweenIs(w, db, undo, draw);
    assert Durable(ops);
    PrunedPicture(w, db, ops);
    ForwardLog(Added(undo, 1), Added(draw, 2));
    PaintsOne(w.paint, w.blank, Added(draw, 2));
  }

  lemma LateLog(draw: Event, undo: Event)
    requires draw.seqNum == 1 && draw.kind != Undo && Targets(undo, 1)
    ensures var m: Log := map[1 := draw, 2 := undo];
            ActiveList(m) == [] && ActiveList(UpTo(m, 1)) == [draw] && ActiveList(After(m, 1)) == []
  {
    var m: Log := map[1 := draw, 2 := undo];
    assert UpTo(m, 1) == map[1 := draw] && After(m, 1) == map[2 := undo];
    assert Effective(m, 2) && Targets(m[2], 1);
    NoneActive(m);
    NoneActive(After(m, 1));
    OneActive(draw);
  }

  lemma ForwardLog(undo: Event, draw: Event)
    requires draw.seqNum == 2 && draw.kind != Undo && Targets(undo, 2)
    ensures var m: Log := map[1 := undo, 2 := draw];
            ActiveList(m) == [] && ActiveList(UpTo(m, 1)) == [] && ActiveList(After(m, 1)) == [draw]
  {
    var m: Log := map[1 := undo, 2 := draw];
    assert UpTo(m, 1) == map[1 := undo] && After(m, 1) == map[2 := draw];
    assert Effective(m, 1) && Targets(m[1], 2);
    NoneActive(m);
    NoneActive(UpTo(m, 1));
    OneActive(draw);
  }

  lemma NoneActive(m: Log)
    requires forall s :: s in m ==> !Active(m, s)
    ensures ActiveList(m) == []
  {
    assert ActiveKeys(m) == {};
  }

  lemma OneActive(draw: Event)
    requires draw.kind != Undo
    ensures ActiveList(map[draw.seqNum := draw]) == [draw]
  {
    var m: Log := map[draw.seqNum := draw];
    assert ActiveKeys(m) == {draw.seqNum};
    SortedSingleton(ActiveKeys(m), draw.seqNum);
  }

  lemma PaintsOne<C>(paint: (C, Event) -> C, canvas: C, e: Event)
    requires e == Plain(e)
    ensures Render(paint, canvas, [e]) == paint(canvas, e) && Render(paint, canvas, []) == canvas
  {
    assert [e][..0] == [];
  }

  /* ---------- any number of compactions ---------- */

  /** The picture of the complete history up to a number. */
  ghost function ShownUpTo<C>(w: Setting<C>, history: Log, cut: int): C {
    Render(w.paint, w.blank, ActiveList(UpTo(history, cut)))
  }

  /** An image of the board is made by this step: by the loop, or by the loop of a
      board just dropped. */
  ghost predicate MakesImage<C>(r: Run<C>, op: Op) {
    (op == RenderCut && r.stage.CutTaken?) || (op == Reload(true) && YetToRender(r))
  }

  /** No undo that counts reaches across the last snapshot in what is rendered next. */
  ghost predicate RendersNextClean<C>(r: Run<C>) {
    CleanCut(UpTo(r.history, NextCut(r)), r.board.lastSnapshotSeq)
  }

  /** Whenever an image is made, no undo that counts reaches across the last snapshot. */
  ghost predicate RendersClean<C>(w: Setting<C>, db: Tables<C>, ops: seq<Op>) {
    forall i :: 0 <= i < |ops| && MakesImage(Execute(w, db, ops[..i]), ops[i]) ==>
      RendersNextClean(Execute(w, db, ops[..i]))
  }

  /** Every image there is, live, stored or still to be stored, shows the complete
      history up to its cut. */
  ghost predicate ImagesTrue<C>(w: Setting<C>, r: Run<C>) {
    && Background(r.board.snapshot, w.blank) == ShownUpTo(w, r.history, r.board.lastSnapshotSeq)
    && (r.stage.Rendered? || r.stage.Saved? ==> r.stage.png == ShownUpTo(w, r.history, r.stage.cut))
    && (w.roomId in r.db.snapshots ==>
          r.db.snapshots[w.roomId].1 == ShownUpTo(w, r.history, r.db.snapshots[w.roomId].0))
    && (forall i :: 0 <= i < |r.late| ==> r.late[i].1 == ShownUpTo(w, r.history, r.late[i].0))
  }

  lemma UpToAfter(m: Log, a: int, c: int)
    requires a <= c
    ensures UpTo(After(m, a), c) == After(UpTo(m, c), a)
    ensures UpTo(UpTo(m, c), a) == UpTo(m, a)
  {
  }

  /** Both histories show the same picture up to every number up to `last`. */
  ghost predicate SameShown<C>(w: Setting<C>, m: Log, m': Log, last: int) {
    forall c :: c <= last ==> ShownUpTo(w, m', c) == ShownUpTo(w, m, c)
  }

  lemma ImagesStay<C>(w: Setting<C>, r: Run<C>, m: Log)
    requires Reachable(w, r) && ImagesTrue(w, r) && SameShown(w, r.history, m, r.board.lastSeq)
    ensures ImagesTrue(w, r.(history := m))
  {
  }

  lemma AddKeepsTrue<C>(w: Setting<C>, r: Run<C>, op: Op)
    requires Reachable(w, r) && ImagesTrue(w, r) && op.Add?
    ensures ImagesTrue(w, Step(w, r, op))
  {
    AddStepIs(w, r, op);
    var n := r.board.lastSeq + 1;
    var e := Event(n, op.userId, op.kind, op.payload, op.id);
    if !Refused(r.board, op.id) {
      forall c | c <= r.board.lastSeq ensures ShownUpTo(w, r.history[n := e], c) == ShownUpTo(w, r.history, c) {
        BoundedQueryStable(r.history, n, e, c);
      }
      ImagesStay(w, r, r.history[n := e]);
    }
  }

  /** A clean render of a true board is true. */
  lemma RenderIsTrue<C>(w: Setting<C>, r: Run<C>)
    requires Reachable(w, r) && ImagesTrue(w, r) && YetToRender(r) && RendersNextClean(r)
    ensures Picture(w.paint, w.blank, r.board, Some(NextCut(r))) == ShownUpTo(w, r.history, NextCut(r))
  {
    var a, c := r.board.lastSnapshotSeq, NextCut(r);
    UpToAfter(r.history, a, c);
    CleanCutPaints(w.paint, w.blank, UpTo(r.history, c), a);
  }

  /** The client ids do not show. */
  lemma ShownAnonymous<C>(w: Setting<C>, m: Log, cut: int)
    ensures ShownUpTo(w, Anonymous(m), cut) == ShownUpTo(w, m, cut)
  {
    assert UpTo(Anonymous(m), cut) == Anonymous(UpTo(m, cut));
    AnonymousResolves(UpTo(m, cut));
    RenderAnonymous(w.paint, w.blank, ActiveList(UpTo(m, cut)));
  }

  lemma ReloadKeepsTrue<C>(w: Setting<C>, r: Run<C>, goesOn: bool)
    requires Reachable(w, r) && Mirrored(w, r) && ImagesTrue(w, r)
    requires goesOn && YetToRender(r) ==> RendersNextClean(r)
    ensures ImagesTrue(w, Step(w, r, Reload(goesOn)))
  {
    forall c ensures ShownUpTo(w, Anonymous(r.history), c) == ShownUpTo(w, r.history, c) {
      ShownAnonymous(w, r.history, c);
    }
    ImagesStay(w, r, Anonymous(r.history));
    if goesOn { InFlightTrue(w, r); }
    ReloadRebuilds(w, r, goesOn);
    RebuiltTrue(w, r, Step(w, r, Reload(goesOn)));
  }

  lemma RebuiltTrue<C>(w: Setting<C>, r: Run<C>, r': Run<C>)
    requires Reachable(w, r) && Rebuilt(w, r, r') && ImagesTrue(w, r.(history := r'.history))
    requires forall i :: 0 <= i < |r'.late| ==> r'.late[i].1 == ShownUpTo(w, r'.history, r'.late[i].0)
    ensures ImagesTrue(w, r')
  {
    NothingShown(w, r'.history);
  }

  lemma InFlightTrue<C>(w: Setting<C>, r: Run<C>)
    requires Reachable(w, r) && ImagesTrue(w, r)
    requires YetToRender(r) ==> RendersNextClean(r)
    ensures forall i :: 0 <= i < |InFlight(w, r)| ==>
            InFlight(w, r)[i].1 == ShownUpTo(w, r.history, InFlight(w, r)[i].0)
  {
    if YetToRender(r) { RenderIsTrue(w, r); }
  }

  lemma NothingShown<C>(w: Setting<C>, m: Log)
    requires forall k :: k in m ==> k >= 1
    ensures ShownUpTo(w, m, 0) == w.blank
  {
    assert ActiveKeys(UpTo(m, 0)) == {};
  }

  lemma ImagesStep<C>(w: Setting<C>, r: Run<C>, op: Op)
    requires Reachable(w, r) && ImagesTrue(w, r) && (op.Reload? ==> Mirrored(w, r))
    requires MakesImage(r, op) ==> RendersNextClean(r)
    ensures ImagesTrue(w, Step(w, r, op))
  {
    match op
    case Add(_, _, _, _, _) => AddKeepsTrue(w, r, op);
    case Reload(goesOn) => ReloadKeepsTrue(w, r, goesOn);
    case RenderCut => if r.stage.CutTaken? { RenderIsTrue(w, r); }
    case _ => ImagesMove(w, r, op);
  }

  /** The other steps only move images. */
  lemma ImagesMove<C>(w: Setting<C>, r: Run<C>, op: Op)
    requires ImagesTrue(w, r) && !op.Add? && !op.Reload? && !op.RenderCut?
    ensures ImagesTrue(w, Step(w, r, op))
  {
    match op
    case SaveLate(i) => LateSaved(w, r, i);
    case SaveCut(committed) =>
    case PruneCut =>
    case TakeCut =>
  }

  lemma LateSaved<C>(w: Setting<C>, r: Run<C>, i: int)
    requires ImagesTrue(w, r)
    ensures ImagesTrue(w, Step(w, r, SaveLate(i)))
  {
    if 0 <= i < |r.late| {
      var late := r.late[..i] + r.late[i + 1..];
      assert forall j :: 0 <= j < |late| ==> late[j] == if j < i then r.late[j] else r.late[j + 1];
    }
  }

  /** However often the board is compacted, dropped and reloaded, every image shows
      the complete history up to its cut, if each was rendered clean. */
  lemma {:induction false} SnapshotsStayTrue<C(!new)>(w: Setting<C>, db: Tables<C>, ops: seq<Op>)
    requires NoRows(db, w.roomId) && Durable(ops) && RendersClean(w, db, ops)
    ensures ImagesTrue(w, Execute(w, db, ops))
  {
    if ops == [] {
      NothingShown(w, map[]);
    } else {
      var pre, op := ops[..|ops| - 1], ops[|ops| - 1];
      CommittedPrefix(ops);
      RunsAreSound(w, db, pre);
      CleanPrefix(w, db, ops);
      SnapshotsStayTrue(w, db, pre);
      ImagesStep(w, Execute(w, db, pre), op);
    }
  }

  lemma CleanPrefix<C>(w: Setting<C>, db: Tables<C>, ops: seq<Op>)
    requires ops != [] && RendersClean(w, db, ops)
    ensures var pre, op := ops[..|ops| - 1], ops[|ops| - 1];
            var r := Execute(w, db, pre);
            && RendersClean(w, db, pre)
            && (MakesImage(r, op) ==> RendersNextClean(r))
  {
    var pre := ops[..|ops| - 1];
    assert forall i :: 0 <= i < |pre| ==> pre[..i] == ops[..i] && pre[i] == ops[i];
  }

  /** After any number of compactions and reloads the board still paints the whole
      history: as if nothing had ever been compacted. */
  lemma CompactionsInvisible<C(!new)>(w: Setting<C>, db: Tables<C>, ops: seq<Op>)
    requires NoRows(db, w.roomId) && Durable(ops) && RendersClean(w, db, ops)
    requires var r := Execute(w, db, ops); CleanCut(r.history, r.board.lastSnapshotSeq)
    ensures var r := Execute(w, db, ops);
            Picture(w.paint, w.blank, r.board, None) == Render(w.paint, w.blank, ActiveList(r.history))
  {
    var r := Execute(w, db, ops);
    RunsAreSound(w, db, ops);
    SnapshotsStayTrue(w, db, ops);
    CleanCutPaints(w.paint, w.blank, r.history, r.board.lastSnapshotSeq);
  }

  /** With backward targets, a look at the retained events tells that the cut is
      clean in the complete history. */
  lemma CleanInHistory(m: Log, a: int)
    requires BackwardTargets(m)
    requires forall s, t :: s in After(m, a) && Effective(After(m, a), s) && Targets(m[s], t) ==> t > a
    ensures CleanCut(m, a)
  {
    AfterEffective(m, a);
  }
}

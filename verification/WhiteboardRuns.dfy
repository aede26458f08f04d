/** Whole runs of one room's whiteboard: clients add events while the snapshot
    loop cuts, renders, saves and prunes, and the room is dropped and loaded again
    from the tables, in any interleaving.

    Each `add_event` and each step of the snapshot loop is atomic. A run also
    remembers, for the statements only, every event ever accepted and the event
    ids accepted since the room was last loaded. */
module WhiteboardRuns {
  import opened Common
  import opened WhiteboardLog
  import opened WhiteboardBoard

  datatype Setting<!C> = Setting(roomId: int, paint: (C, Event) -> C, blank: C)

  datatype Stage<C> =
    | Idle
    | CutTaken(cut: int)
    | Rendered(cut: int, png: C)
    | Saved(cut: int, png: C)

  /** `Reload` drops the board and loads it again: the room emptied and was joined
      again, or its server stopped. The dropped board's snapshot loop either ends
      there, or (`goesOn`) finishes the turn it is in, or takes one more if it was
      in its last second of sleep, and may still save its image, by `SaveLate`. */
  datatype Op =
    | Add(userId: int, kind: Kind, payload: Payload, id: Option<string>, committed: bool)
    | TakeCut
    | RenderCut
    | SaveCut(committed: bool)
    | PruneCut
    | Reload(goesOn: bool)
    | SaveLate(index: int)

  /** `late` are the images dropped boards may still save; `stale` tells that one
      of them was saved after the live board's own last save or load. */
  datatype Run<C> = Run(
    board: Board<C>,
    db: Tables<C>,
    stage: Stage<C>,
    late: seq<(int, C)>,
    stale: bool,
    history: Log,
    accepted: seq<string>)

  ghost predicate NoRows<C(!new)>(db: Tables<C>, roomId: int) {
    roomId !in db.snapshots && forall s :: (roomId, s) !in db.events
  }

  ghost function Start<C>(db: Tables<C>): Run<C> {
    Run(EmptyBoard(), db, Idle, [], false, map[], [])
  }

  /** The image the snapshot loop of a board dropped now may still save. */
  ghost function InFlight<C>(w: Setting<C>, r: Run<C>): seq<(int, C)> {
    if r.stage.Rendered? then [(r.stage.cut, r.stage.png)]
    else if YetToRender(r) then [(NextCut(r), Picture(w.paint, w.blank, r.board, Some(NextCut(r))))]
    else []
  }

  /** The loop has taken a cut it has not rendered, or is due to take one. */
  predicate YetToRender<C>(r: Run<C>) {
    r.stage.CutTaken? || (r.stage.Idle? && r.board.lastSeq > r.board.lastSnapshotSeq)
  }

  function NextCut<C>(r: Run<C>): int {
    if r.stage.CutTaken? then r.stage.cut else r.board.lastSeq
  }

  ghost function Step<C>(w: Setting<C>, r: Run<C>, op: Op): Run<C> {
    match op
    case Add(userId, kind, payload, id, committed) =>
      var (b, n) := AddEvent(r.board, userId, kind, payload, id);
      if Refused(r.board, id) then r.(board := b)
      else r.(
        board := b,
        db := if committed then InsertEvent(r.db, w.roomId, n, Row(userId, kind, payload)) else r.db,
        history := r.history[n := Event(n, userId, kind, payload, id)],
        accepted := if HasId(id) then r.accepted + [id.value] else r.accepted)
    case TakeCut =>
      if r.stage == Idle && r.board.lastSeq > r.board.lastSnapshotSeq
      then r.(stage := CutTaken(r.board.lastSeq)) else r
    case RenderCut =>
      if r.stage.CutTaken?
      then r.(stage := Rendered(r.stage.cut, Picture(w.paint, w.blank, r.board, Some(r.stage.cut)))) else r
    case SaveCut(committed) =>
      if !r.stage.Rendered? then r
      else if !committed then r.(stage := Idle)
      else r.(stage := Saved(r.stage.cut, r.stage.png),
              stale := false,
              db := r.db.(snapshots := r.db.snapshots[w.roomId := (r.stage.cut, r.stage.png)]))
    case PruneCut =>
      if r.stage.Saved? then r.(stage := Idle, board := Prune(r.board, r.stage.cut, r.stage.png)) else r
    case Reload(goesOn) =>
      Run(Loaded(EmptyBoard(), r.db, w.roomId), r.db, Idle, r.late + (if goesOn then InFlight(w, r) else []), false,
          Anonymous(r.history), [])
    case SaveLate(i) =>
      if 0 <= i < |r.late|
      then r.(late := r.late[..i] + r.late[i + 1..], stale := true,
              db := r.db.(snapshots := r.db.snapshots[w.roomId := r.late[i]]))
      else r
  }

  /** A dropped board's loop that goes on saves the image it has rendered, or renders
      at the cut it has taken or is due to take; one past its save adds nothing. */
  lemma DroppedLoopSaves<C>(w: Setting<C>, r: Run<C>)
    ensures var dropped := Step(w, r, Reload(true));
            var saved := Step(w, dropped, SaveLate(|r.late|));
            var due := r.stage.Idle? && r.board.lastSeq > r.board.lastSnapshotSeq;
            && dropped.late[..|r.late|] == r.late
            && (r.stage.Saved? || (r.stage.Idle? && !due) ==> saved == dropped && dropped.late == r.late)
            && (!r.stage.Saved? && (r.stage.Idle? ==> due) ==>
                  && w.roomId in saved.db.snapshots && saved.stale && saved.late == r.late
                  && saved.db.snapshots[w.roomId].0 == (if due then r.board.lastSeq else r.stage.cut)
                  && saved.db.snapshots[w.roomId].1 ==
                       if r.stage.Rendered? then r.stage.png
                       else Picture(w.paint, w.blank, r.board, Some(saved.db.snapshots[w.roomId].0)))
    ensures Step(w, r, Reload(false)).late == r.late
  {
  }

  ghost function ExecuteFrom<C>(w: Setting<C>, r: Run<C>, ops: seq<Op>): Run<C> {
    if ops == [] then r else Step(w, ExecuteFrom(w, r, ops[..|ops| - 1]), ops[|ops| - 1])
  }

  ghost function Execute<C>(w: Setting<C>, db: Tables<C>, ops: seq<Op>): Run<C> {
    ExecuteFrom(w, Start(db), ops)
  }

  ghost predicate AllCommitted(ops: seq<Op>) {
    forall i :: 0 <= i < |ops| && ops[i].Add? ==> ops[i].committed
  }

  /** Every event added before a reload reached the table. */
  ghost predicate Durable(ops: seq<Op>) {
    forall i, j :: 0 <= i < j < |ops| && ops[i].Add? && ops[j].Reload? ==> ops[i].committed
  }

  /* ---------- what every reachable state keeps ---------- */

  ghost predicate Numbered<C>(r: Run<C>) {
    && 0 <= r.board.lastSnapshotSeq <= r.board.lastSeq
    && (forall k :: k in r.history <==> 1 <= k <= r.board.lastSeq)
    && WellKeyed(r.history)
    && r.board.events == After(r.history, r.board.lastSnapshotSeq)
    && r.board.undoneSeqs == UndoneSet(r.board.events)
  }

  /** The number up to which the stored snapshot goes. */
  function StoredCut<C>(w: Setting<C>, db: Tables<C>): int {
    if w.roomId in db.snapshots then db.snapshots[w.roomId].0 else 0
  }

  function StoredImage<C>(w: Setting<C>, db: Tables<C>): Option<C> {
    if w.roomId in db.snapshots then Some(db.snapshots[w.roomId].1) else None
  }

  ghost predicate StageSound<C>(w: Setting<C>, r: Run<C>) {
    && (!r.stage.Idle? ==> r.board.lastSnapshotSeq < r.stage.cut <= r.board.lastSeq)
    && (r.stage.Rendered? || r.stage.Saved? ==>
          r.stage.png == Picture(w.paint, w.blank, r.board, Some(r.stage.cut)))
    && (!r.stale ==> StoredSound(w, r))
  }

  /** With no late save in between, the stored snapshot is the board's, or the one
      about to become the board's. */
  ghost predicate StoredSound<C>(w: Setting<C>, r: Run<C>) {
    if r.stage.Saved? then w.roomId in r.db.snapshots && r.db.snapshots[w.roomId] == (r.stage.cut, r.stage.png)
    else if w.roomId in r.db.snapshots
    then r.board.snapshot == Some(r.db.snapshots[w.roomId].1) && r.board.lastSnapshotSeq == r.db.snapshots[w.roomId].0
    else r.board.snapshot == None && r.board.lastSnapshotSeq == 0
  }

  /** No image is newer than the log. */
  ghost predicate CutsKnown<C>(w: Setting<C>, r: Run<C>) {
    && 0 <= StoredCut(w, r.db) <= r.board.lastSeq
    && forall i :: 0 <= i < |r.late| ==> 0 <= r.late[i].0 <= r.board.lastSeq
  }

  /** The last `n` entries of a list. */
  function LastOf<T>(s: seq<T>, n: nat): (r: seq<T>)
    ensures |r| == (if |s| <= n then |s| else n) && s[|s| - |r|..] == r
  {
    if |s| <= n then s else s[|s| - n..]
  }

  ghost predicate NoDuplicates<T>(s: seq<T>) {
    forall i, j :: 0 <= i < j < |s| ==> s[i] != s[j]
  }

  ghost predicate IdsTracked<C>(r: Run<C>) {
    && r.board.idHistory == LastOf(r.accepted, ID_WINDOW)
    && NoDuplicates(r.board.idHistory)
    && (forall x :: x in r.board.processedIds <==> x in r.board.idHistory)
    && (forall x :: x in r.board.idHistory ==> Holders(r.history, Some(x)) != {})
  }

  /** The room's rows are the accepted events. */
  ghost predicate Mirrored<C>(w: Setting<C>, r: Run<C>) {
    && (forall s :: (w.roomId, s) in r.db.events <==> s in r.history)
    && (forall s :: s in r.history ==>
          r.db.events[(w.roomId, s)] == Row(r.history[s].userId, r.history[s].kind, r.history[s].payload))
  }

  ghost predicate Reachable<C>(w: Setting<C>, r: Run<C>) {
    Numbered(r) && StageSound(w, r) && CutsKnown(w, r) && IdsTracked(r)
  }

  lemma NumberedStep<C>(w: Setting<C>, r: Run<C>, op: Op)
    requires Numbered(r) && StageSound(w, r) && !op.Reload?
    ensures Numbered(Step(w, r, op))
  {
    if op.Add? {
      AddNumbered(w, r, op);
    } else if op == PruneCut && r.stage.Saved? {
      PruneNumbered(r, r.stage.cut, r.stage.png);
    } else {
      assert Step(w, r, op).board == r.board && Step(w, r, op).history == r.history;
    }
  }

  lemma AddNumbered<C>(w: Setting<C>, r: Run<C>, op: Op)
    requires Numbered(r) && op.Add?
    ensures Numbered(Step(w, r, op))
  {
    AddStepIs(w, r, op);
  }

  lemma PruneNumbered<C>(r: Run<C>, cut: int, png: C)
    requires Numbered(r) && r.board.lastSnapshotSeq <= cut <= r.board.lastSeq
    ensures Numbered(r.(stage := Idle, board := Prune(r.board, cut, png)))
  {
    assert After(r.board.events, cut) == After(r.history, cut);
  }

  lemma CutsStep<C>(w: Setting<C>, r: Run<C>, op: Op)
    requires Numbered(r) && StageSound(w, r) && CutsKnown(w, r) && !op.Reload?
    ensures CutsKnown(w, Step(w, r, op))
  {
  }

  lemma StageStep<C>(w: Setting<C>, r: Run<C>, op: Op)
    requires Numbered(r) && StageSound(w, r) && !op.Reload?
    ensures StageSound(w, Step(w, r, op))
  {
    if op.Add? { AddStage(w, r, op); } else { SnapshotStage(w, r, op); }
  }

  /** What adding an event touches. */
  lemma AddStepIs<C>(w: Setting<C>, r: Run<C>, op: Op)
    requires op.Add?
    ensures var r', n := Step(w, r, op), r.board.lastSeq + 1;
            var e := Event(n, op.userId, op.kind, op.payload, op.id);
            && r'.stage == r.stage && r'.late == r.late && r'.stale == r.stale && r'.db.snapshots == r.db.snapshots
            && r'.board.snapshot == r.board.snapshot && r'.board.lastSnapshotSeq == r.board.lastSnapshotSeq
            && r'.board.lastSeq == (if Refused(r.board, op.id) then r.board.lastSeq else n)
            && r'.board.events == (if Refused(r.board, op.id) then r.board.events else r.board.events[n := e])
            && r'.history == (if Refused(r.board, op.id) then r.history else r.history[n := e])
  {
  }

  lemma AddStage<C>(w: Setting<C>, r: Run<C>, op: Op)
    requires Numbered(r) && StageSound(w, r) && op.Add?
    ensures StageSound(w, Step(w, r, op))
  {
    AddStepIs(w, r, op);
    var n := r.board.lastSeq + 1;
    if !Refused(r.board, op.id) && !r.stage.Idle? {
      BoundedQueryStable(r.board.events, n, Event(n, op.userId, op.kind, op.payload, op.id), r.stage.cut);
      assert Query(Step(w, r, op).board, Some(r.stage.cut)) == Query(r.board, Some(r.stage.cut));
    }
  }

  lemma SnapshotStage<C>(w: Setting<C>, r: Run<C>, op: Op)
    requires Numbered(r) && StageSound(w, r) && !op.Add? && !op.Reload?
    ensures StageSound(w, Step(w, r, op))
  {
  }

  lemma IdsStep<C>(w: Setting<C>, r: Run<C>, op: Op)
    requires IdsTracked(r) && Numbered(r) && !op.Reload?
    ensures IdsTracked(Step(w, r, op))
  {
    var r' := Step(w, r, op);
    if op.Add? && !Refused(r.board, op.id) {
      var n := r.board.lastSeq + 1;
      IdsAdded(r, r', n, Event(n, op.userId, op.kind, op.payload, op.id));
    } else {
      IdsKept(r, r');
    }
  }

  lemma IdsKept<C>(r: Run<C>, r': Run<C>)
    requires IdsTracked(r) && r'.history == r.history && r'.accepted == r.accepted
    requires r'.board.idHistory == r.board.idHistory && r'.board.processedIds == r.board.processedIds
    ensures IdsTracked(r')
  {
  }

  lemma IdsAdded<C>(r: Run<C>, r': Run<C>, n: int, e: Event)
    requires IdsTracked(r) && n !in r.history && r'.history == r.history[n := e] && !Refused(r.board, e.clientEventId)
    requires var id, b := e.clientEventId, r.board;
             && r'.accepted == (if HasId(id) then r.accepted + [id.value] else r.accepted)
             && r'.board.idHistory == (if HasId(id) then Remember(b.idHistory, id.value) else b.idHistory)
             && r'.board.processedIds ==
                (if HasId(id) then RememberSet(b.processedIds, b.idHistory, id.value) else b.processedIds)
    ensures IdsTracked(r')
  {
    HoldersGrow(r.history, n, e);
    if HasId(e.clientEventId) {
      var x := e.clientEventId.value;
      WindowSlides(r.board.idHistory, r.accepted, x);
      WindowSet(r.board.processedIds, r.board.idHistory, x);
    }
  }

  lemma HoldersGrow(m: Log, n: int, e: Event)
    requires n !in m
    ensures forall x :: Holders(m, Some(x)) != {} ==> Holders(m[n := e], Some(x)) != {}
    ensures Holders(m[n := e], e.clientEventId) != {}
  {
    forall x | Holders(m, Some(x)) != {} ensures Holders(m[n := e], Some(x)) != {} {
      Inhabited(Holders(m, Some(x)));
      var s :| s in Holders(m, Some(x));
      assert s in Holders(m[n := e], Some(x));
    }
    assert n in Holders(m[n := e], e.clientEventId);
  }

  lemma WindowSlides(history: seq<string>, accepted: seq<string>, x: string)
    requires history == LastOf(accepted, ID_WINDOW)
    ensures Remember(history, x) == LastOf(accepted + [x], ID_WINDOW)
  {
    SlidOne(accepted, x, ID_WINDOW);
  }

  lemma SlidOne(accepted: seq<string>, x: string, n: nat)
    requires n > 0
    ensures var h := LastOf(accepted, n) + [x];
            LastOf(accepted + [x], n) == if |h| > n then h[1..] else h
  {
    var all := accepted + [x];
    if |accepted| < n {
      assert LastOf(all, n) == all;
    } else {
      assert accepted[|accepted| - n..][1..] == accepted[|accepted| - n + 1..];
      assert all[|all| - n..] == accepted[|accepted| - n + 1..] + [x];
    }
  }

  lemma WindowSet(ids: set<string>, history: seq<string>, x: string)
    requires NoDuplicates(history) && x !in ids
    requires forall y :: y in ids <==> y in history
    ensures NoDuplicates(Remember(history, x))
    ensures forall y :: y in RememberSet(ids, history, x) <==> y in Remember(history, x)
    ensures forall y :: y in Remember(history, x) ==> y in history || y == x
  {
    var h := history + [x];
    assert NoDuplicates(h);
    assert forall y :: y in h <==> y in ids + {x};
    assert h == [h[0]] + h[1..];
  }

  lemma MirrorStep<C>(w: Setting<C>, r: Run<C>, op: Op)
    requires Numbered(r) && Mirrored(w, r) && !op.Reload? && (op.Add? ==> op.committed)
    ensures Mirrored(w, Step(w, r, op))
  {
    var r' := Step(w, r, op);
    if op.Add? && !Refused(r.board, op.id) {
      var n := r.board.lastSeq + 1;
      assert r'.history == r.history[n := Event(n, op.userId, op.kind, op.payload, op.id)];
      assert r'.db.events == r.db.events[(w.roomId, n) := Row(op.userId, op.kind, op.payload)];
    } else {
      assert r'.history == r.history && r'.db.events == r.db.events;
    }
  }

  lemma LoadedIs<C>(w: Setting<C>, r: Run<C>, base: int)
    requires Mirrored(w, r) && WellKeyed(r.history)
    ensures LoadedEvents(r.db, w.roomId, base) == Anonymous(After(r.history, base))
    ensures RoomSeqs(r.db, w.roomId, base) == After(r.history, base).Keys
  {
    LoadedSeqs(w, r, base);
    assert LoadedEvents(r.db, w.roomId, base).Keys == RoomSeqs(r.db, w.roomId, base);
  }

  lemma LoadedSeqs<C>(w: Setting<C>, r: Run<C>, base: int)
    requires Mirrored(w, r)
    ensures RoomSeqs(r.db, w.roomId, base) == After(r.history, base).Keys
  {
    forall s | s in After(r.history, base) ensures s in RoomSeqs(r.db, w.roomId, base) {
      assert (w.roomId, s) in r.db.events;
    }
  }

  lemma LastRetained<C>(r: Run<C>, base: int, last: int)
    requires Numbered(r) && 0 <= base <= last == r.board.lastSeq
    ensures MaxOr(After(r.history, base).Keys, base) == last
  {
    if last > base {
      assert last in After(r.history, base);
    }
  }

  /** What a reload makes of a board whose rows are complete: the events after the
      stored snapshot, without their client ids. */
  lemma LoadedBoard<C>(w: Setting<C>, r: Run<C>)
    requires Numbered(r) && CutsKnown(w, r) && Mirrored(w, r)
    ensures var base := StoredCut(w, r.db);
            Loaded(EmptyBoard(), r.db, w.roomId) ==
              Board(r.board.lastSeq, base, StoredImage(w, r.db),
                    Anonymous(After(r.history, base)), UndoneSet(Anonymous(After(r.history, base))), {}, [])
  {
    var base := StoredCut(w, r.db);
    LoadedIs(w, r, base);
    LastRetained(r, base, r.board.lastSeq);
  }

  /** `r'` is what a reload makes of `r`. */
  ghost predicate Rebuilt<C>(w: Setting<C>, r: Run<C>, r': Run<C>) {
    && r'.board.lastSeq == r.board.lastSeq
    && r'.board.lastSnapshotSeq == StoredCut(w, r.db)
    && r'.board.snapshot == StoredImage(w, r.db)
    && r'.board.events == Anonymous(After(r.history, StoredCut(w, r.db)))
    && r'.board.undoneSeqs == UndoneSet(r'.board.events)
    && r'.board.processedIds == {} && r'.board.idHistory == []
    && r'.db == r.db && r'.stage == Idle && !r'.stale
    && r'.history == Anonymous(r.history) && r'.accepted == []
  }

  lemma ReloadRebuilds<C>(w: Setting<C>, r: Run<C>, goesOn: bool)
    requires Numbered(r) && CutsKnown(w, r) && Mirrored(w, r)
    ensures Rebuilt(w, r, Step(w, r, Reload(goesOn)))
    ensures Step(w, r, Reload(goesOn)).late == r.late + (if goesOn then InFlight(w, r) else [])
  {
    LoadedBoard(w, r);
  }

  lemma RebuiltNumbered<C>(w: Setting<C>, r: Run<C>, r': Run<C>)
    requires Numbered(r) && CutsKnown(w, r) && Rebuilt(w, r, r')
    ensures Numbered(r')
  {
    assert Anonymous(After(r.history, StoredCut(w, r.db))) == After(Anonymous(r.history), StoredCut(w, r.db));
  }

  lemma RebuiltKept<C>(w: Setting<C>, r: Run<C>, r': Run<C>)
    requires Mirrored(w, r) && Rebuilt(w, r, r')
    ensures Mirrored(w, r') && StageSound(w, r') && IdsTracked(r')
  {
  }

  lemma InFlightKnown<C>(w: Setting<C>, r: Run<C>)
    requires Numbered(r) && StageSound(w, r)
    ensures forall i :: 0 <= i < |InFlight(w, r)| ==> 0 <= InFlight(w, r)[i].0 <= r.board.lastSeq
  {
  }

  lemma ReloadStep<C>(w: Setting<C>, r: Run<C>, goesOn: bool)
    requires Reachable(w, r) && Mirrored(w, r)
    ensures Reachable(w, Step(w, r, Reload(goesOn))) && Mirrored(w, Step(w, r, Reload(goesOn)))
  {
    ReloadRebuilds(w, r, goesOn);
    InFlightKnown(w, r);
    ReloadedReachable(w, r, Step(w, r, Reload(goesOn)));
  }

  lemma ReloadedReachable<C>(w: Setting<C>, r: Run<C>, r': Run<C>)
    requires Reachable(w, r) && Mirrored(w, r) && Rebuilt(w, r, r')
    requires forall i :: 0 <= i < |r'.late| ==> 0 <= r'.late[i].0 <= r.board.lastSeq
    ensures Reachable(w, r') && Mirrored(w, r')
  {
    RebuiltNumbered(w, r, r');
    RebuiltKept(w, r, r');
  }

  lemma CommittedPrefix(ops: seq<Op>)
    requires ops != []
    ensures var pre, op := ops[..|ops| - 1], ops[|ops| - 1];
            && (Durable(ops) ==> Durable(pre))
            && (AllCommitted(ops) ==> AllCommitted(pre) && (op.Add? ==> op.committed))
            && (Durable(ops) && op.Reload? ==> AllCommitted(pre))
  {
    var pre := ops[..|ops| - 1];
    assert forall i :: 0 <= i < |pre| ==> pre[i] == ops[i];
  }

  /** Every run keeps all of it; and while every insert commits, the room's rows
      are exactly the accepted events. */
  lemma {:induction false} RunsAreSound<C(!new)>(w: Setting<C>, db: Tables<C>, ops: seq<Op>)
    requires NoRows(db, w.roomId) && Durable(ops)
    ensures Reachable(w, Execute(w, db, ops))
    ensures AllCommitted(ops) ==> Mirrored(w, Execute(w, db, ops))
  {
    if ops != [] {
      var pre, op := ops[..|ops| - 1], ops[|ops| - 1];
      CommittedPrefix(ops);
      RunsAreSound(w, db, pre);
      var before := Execute(w, db, pre);
      if op.Reload? {
        ReloadStep(w, before, op.goesOn);
      } else {
        NumberedStep(w, before, op);
        StageStep(w, before, op);
        CutsStep(w, before, op);
        IdsStep(w, before, op);
        if AllCommitted(ops) { MirrorStep(w, before, op); }
      }
    }
  }

  /* ---------- numbers and duplicate ids ---------- */

  /** A non-empty id is refused exactly when it is among the last thousand
      accepted since the room was last loaded. A refusal changes nothing and reports a retained event with that
      id, or the last number when every event with that id has been pruned. An
      accepted event gets a number above every number given before. */
  lemma ResendRefusedExactly<C(!new)>(w: Setting<C>, db: Tables<C>, ops: seq<Op>,
                                      userId: int, kind: Kind, payload: Payload, id: Option<string>)
    requires NoRows(db, w.roomId) && Durable(ops)
    ensures var r := Execute(w, db, ops);
            var (b, n) := AddEvent(r.board, userId, kind, payload, id);
            var refused := Refused(r.board, id);
            && (refused <==> id.Some? && id.value != "" && id.value in LastOf(r.accepted, 1000))
            && (refused ==> b == r.board)
            && (refused && Holders(r.board.events, id) != {} ==>
                  n in Holders(r.board.events, id) && forall s :: s in Holders(r.board.events, id) ==> n <= s)
            && (refused && Holders(r.board.events, id) == {} ==>
                  && n == r.board.lastSeq
                  && Holders(r.history, id) != {}
                  && forall s :: s in Holders(r.history, id) ==> s <= r.board.lastSnapshotSeq)
            && (!refused ==> n == r.board.lastSeq + 1 && forall s :: s in r.history ==> s < n)
            && (forall s :: s in b.events ==> b.lastSnapshotSeq < s <= b.lastSeq)
  {
    RunsAreSound(w, db, ops);
    var r := Execute(w, db, ops);
    ExistingIs(r.board.events, r.board.lastSeq, id);
    if Refused(r.board, id) {
      PrunedHolders(r, id);
    }
  }

  lemma ExistingIs(m: Log, lastSeq: int, id: Option<string>)
    ensures Holders(m, id) != {} ==> ExistingSeq(m, lastSeq, id) in Holders(m, id)
    ensures forall s :: s in Holders(m, id) ==> ExistingSeq(m, lastSeq, id) <= s
    ensures Holders(m, id) == {} ==> ExistingSeq(m, lastSeq, id) == lastSeq
  {
    var keys := Sorted(Holders(m, id));
    Inhabited(Holders(m, id));
    if s :| s in Holders(m, id) {
      assert s in keys;
      assert keys[0] in keys;
    }
    forall s | s in Holders(m, id) ensures keys[0] <= s {
      assert s in keys;
    }
  }

  lemma PrunedHolders<C>(r: Run<C>, id: Option<string>)
    requires Numbered(r)
    ensures Holders(r.board.events, id) == {} ==>
      forall s :: s in Holders(r.history, id) ==> s <= r.board.lastSnapshotSeq
  {
    forall s | s in Holders(r.history, id) && s > r.board.lastSnapshotSeq
      ensures s in Holders(r.board.events, id)
    {
    }
  }

  /* ---------- the cached set and the query ---------- */

  /** In every reachable state the cached set picks out the events the query lists. */
  lemma CacheAgreesWithQuery<C(!new)>(w: Setting<C>, db: Tables<C>, ops: seq<Op>, e: Event)
    requires NoRows(db, w.roomId) && Durable(ops)
    ensures var b := Execute(w, db, ops).board;
            e in Query(b, None) <==>
              (e.seqNum in b.events && b.events[e.seqNum] == e && e.kind != Undo && e.seqNum !in b.undoneSeqs)
  {
    RunsAreSound(w, db, ops);
    var b := Execute(w, db, ops).board;
    UndoneSetHas(b.events, e.seqNum);
    ListedExactly(b.events, e);
  }

  lemma ListedExactly(m: Log, e: Event)
    requires WellKeyed(m)
    ensures e in ActiveList(m) <==> e.seqNum in m && m[e.seqNum] == e && Active(m, e.seqNum)
  {
    var keys := Sorted(ActiveKeys(m));
    assert forall i :: 0 <= i < |keys| ==> keys[i] in keys;
    if e in ActiveList(m) {
      var i :| 0 <= i < |keys| && ActiveList(m)[i] == e;
    }
    if e.seqNum in m && m[e.seqNum] == e && Active(m, e.seqNum) {
      assert e.seqNum in keys;
      var i :| 0 <= i < |keys| && keys[i] == e.seqNum;
      assert ActiveList(m)[i] == e;
    }
  }

  /** A bounded query answers the same after any number of further events. */
  lemma {:induction false} BoundedQueryOverAdds<C>(w: Setting<C>, r: Run<C>, adds: seq<Op>, bound: int)
    requires Numbered(r) && StageSound(w, r) && bound <= r.board.lastSeq
    requires forall i :: 0 <= i < |adds| ==> adds[i].Add?
    ensures var r' := ExecuteFrom(w, r, adds);
            && Numbered(r') && StageSound(w, r') && bound <= r'.board.lastSeq
            && Query(r'.board, Some(bound)) == Query(r.board, Some(bound))
  {
    if adds != [] {
      var mid := ExecuteFrom(w, r, adds[..|adds| - 1]);
      var op := adds[|adds| - 1];
      BoundedQueryOverAdds(w, r, adds[..|adds| - 1], bound);
      BoundedQueryOverAdd(w, mid, op, bound);
    }
  }

  lemma BoundedQueryOverAdd<C>(w: Setting<C>, r: Run<C>, op: Op, bound: int)
    requires Numbered(r) && StageSound(w, r) && bound <= r.board.lastSeq && op.Add?
    ensures var r' := Step(w, r, op);
            && Numbered(r') && StageSound(w, r') && bound <= r'.board.lastSeq
            && Query(r'.board, Some(bound)) == Query(r.board, Some(bound))
  {
    AddNumbered(w, r, op);
    AddStage(w, r, op);
    AddStepIs(w, r, op);
    var n := r.board.lastSeq + 1;
    BoundedQueryStable(r.board.events, n, Event(n, op.userId, op.kind, op.payload, op.id), bound);
  }

  /* ---------- restart ---------- */

  /** Reloading a room rebuilds the log's retained part, its last number and its
      undone set whatever snapshot is stored, and, unless a dropped board has saved
      late, exactly the live board: same snapshot, numbers, events and answers,
      apart from the client event ids, which are not stored. A server that stops
      between saving a snapshot and pruning comes back as if it had pruned. */
  lemma RestartRebuilds<C(!new)>(w: Setting<C>, db: Tables<C>, ops: seq<Op>)
    requires NoRows(db, w.roomId) && Durable(ops) && AllCommitted(ops)
    ensures var r := Execute(w, db, ops);
            var loaded := Loaded(EmptyBoard(), r.db, w.roomId);
            var kept := After(r.history, StoredCut(w, r.db));
            && loaded.lastSeq == r.board.lastSeq
            && loaded.events == Anonymous(kept) && loaded.undoneSeqs == UndoneSet(kept)
            && Query(loaded, None) == AnonymousList(ActiveList(kept))
    ensures var r := Execute(w, db, ops);
            var live := Step(w, r, PruneCut).board;
            && (!r.stage.Saved? ==> live == r.board)
            && (!r.stale ==> SameButIds(live, Loaded(EmptyBoard(), r.db, w.roomId)))
  {
    RunsAreSound(w, db, ops);
    RestartKeeps(w, Execute(w, db, ops));
    if !Execute(w, db, ops).stale { RestartLive(w, Execute(w, db, ops)); }
  }

  lemma RestartKeeps<C>(w: Setting<C>, r: Run<C>)
    requires Numbered(r) && CutsKnown(w, r) && Mirrored(w, r)
    ensures var loaded := Loaded(EmptyBoard(), r.db, w.roomId);
            var kept := After(r.history, StoredCut(w, r.db));
            && loaded.lastSeq == r.board.lastSeq
            && loaded.events == Anonymous(kept) && loaded.undoneSeqs == UndoneSet(kept)
            && Query(loaded, None) == AnonymousList(ActiveList(kept))
  {
    LoadedBoard(w, r);
    AnonymousResolves(After(r.history, StoredCut(w, r.db)));
  }

  lemma RestartLive<C(!new)>(w: Setting<C>, r: Run<C>)
    requires Reachable(w, r) && Mirrored(w, r) && !r.stale
    ensures SameButIds(Step(w, r, PruneCut).board, Loaded(EmptyBoard(), r.db, w.roomId))
  {
    LoadedBoard(w, r);
    PrunedLive(w, r);
    RestartOf(w, Step(w, r, PruneCut), Loaded(EmptyBoard(), r.db, w.roomId));
  }

  /** The loaded board is the live one without client event ids. */
  ghost predicate SameButIds<C(!new)>(live: Board<C>, loaded: Board<C>) {
    && loaded == live.(events := Anonymous(live.events), processedIds := {}, idHistory := [])
    && Query(loaded, None) == AnonymousList(Query(live, None))
  }

  /** A saved but not yet pruned board, pruned, is what the tables describe. */
  lemma PrunedLive<C>(w: Setting<C>, r: Run<C>)
    requires Numbered(r) && StageSound(w, r) && !r.stale
    ensures var r' := Step(w, r, PruneCut);
            && Numbered(r') && StoredSound(w, r') && !r'.stage.Saved?
            && r'.db == r.db && r'.history == r.history && r'.board.lastSeq == r.board.lastSeq
  {
    NumberedStep(w, r, PruneCut);
  }

  lemma RestartOf<C(!new)>(w: Setting<C>, r: Run<C>, loaded: Board<C>)
    requires Numbered(r) && StoredSound(w, r) && !r.stage.Saved?
    requires var base := StoredCut(w, r.db);
             loaded == Board(r.board.lastSeq, base, StoredImage(w, r.db),
                             Anonymous(After(r.history, base)), UndoneSet(Anonymous(After(r.history, base))), {}, [])
    ensures SameButIds(r.board, loaded)
  {
    AnonymousResolves(r.board.events);
  }
}

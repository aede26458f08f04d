/** The server's whiteboard object: the loops that resolve undos, the cached
    set, persistence, reload and the steps of a periodic snapshot, each proved
    to compute what `WhiteboardBoard` says.

    A canvas is abstract: `paint` draws one event and `blank` is the background.
    A stored PNG is the canvas it encodes. */
module WhiteboardServer {
  import opened Common
  import opened WhiteboardLog
  import opened WhiteboardBoard

  class Database<C(!new)> {
    var tables: Tables<C>

    constructor ()
      ensures tables == Tables(map[], map[])
    {
      tables := Tables(map[], map[]);
    }
  }

  class WhiteboardState<C(!new)> {
    const roomId: int
    const db: Database<C>
    const paint: (C, Event) -> C
    const blank: C
    var lastSeq: int
    var lastSnapshotSeq: int
    var snapshot: Option<C>
    var events: Log
    var undoneSeqs: set<int>
    var processedIds: set<string>
    var idHistory: seq<string>

    ghost function State(): Board<C>
      reads this
    {
      Board(lastSeq, lastSnapshotSeq, snapshot, events, undoneSeqs, processedIds, idHistory)
    }

    constructor (roomId: int, db: Database<C>, paint: (C, Event) -> C, blank: C, reachable: bool)
      ensures this.roomId == roomId && this.db == db && this.paint == paint && this.blank == blank
      ensures State() == if reachable then Loaded(EmptyBoard(), db.tables, roomId) else EmptyBoard()
    {
      this.roomId, this.db, this.paint, this.blank := roomId, db, paint, blank;
      lastSeq, lastSnapshotSeq, snapshot := 0, 0, None;
      events, undoneSeqs, processedIds, idHistory := map[], {}, {}, [];
      new;
      LoadFromDb(reachable);
    }

    /** `reachable` says whether the database answered. */
    method LoadFromDb(reachable: bool)
      modifies this
      ensures State() == if reachable then Loaded(old(State()), db.tables, roomId) else Cleared(old(State()))
      ensures !reachable ==> events == map[] && undoneSeqs == {} && lastSeq == lastSnapshotSeq == 0 && snapshot == None
    {
      events, undoneSeqs := map[], {};
      lastSeq, lastSnapshotSeq, snapshot := 0, 0, None;
      if !reachable { return; }
      if roomId in db.tables.snapshots {
        var row := db.tables.snapshots[roomId];
        lastSnapshotSeq, snapshot, lastSeq := row.0, Some(row.1), row.0;
      }
      var rows := Sorted(RoomSeqs(db.tables, roomId, lastSeq));
      RowsPresent(db.tables, roomId, lastSeq);
      SortedLast(RoomSeqs(db.tables, roomId, lastSeq), lastSeq);
      LoadedWhole(db.tables, roomId, lastSeq, rows);
      events, lastSeq := ReadRows(db.tables, roomId, lastSeq, rows);
      RecalculateUndoneSeqs();
    }

    method RecalculateUndoneSeqs()
      modifies this`undoneSeqs
      ensures undoneSeqs == UndoneSet(events)
    {
      SortedKeys(events);
      undoneSeqs := ScanUndone(events, Sorted(events.Keys), events);
    }

    method AddEvent(userId: int, kind: Kind, payload: Payload, id: Option<string>, committed: bool)
      returns (seqNum: int)
      modifies this, db
      ensures (State(), seqNum) == WhiteboardBoard.AddEvent(old(State()), userId, kind, payload, id)
      ensures db.tables ==
        if committed && !Refused(old(State()), id)
        then InsertEvent(old(db.tables), roomId, seqNum, Row(userId, kind, payload))
        else old(db.tables)
    {
      if HasId(id) && id.value in processedIds {
        seqNum := FindExisting(events, lastSeq, id);
        return;
      }
      lastSeq := lastSeq + 1;
      seqNum := lastSeq;
      events := events[seqNum := Event(seqNum, userId, kind, payload, id)];
      if HasId(id) {
        processedIds := processedIds + {id.value};
        idHistory := idHistory + [id.value];
        if |idHistory| > ID_WINDOW {
          processedIds := processedIds - {idHistory[0]};
          idHistory := idHistory[1..];
        }
      }
      RecalculateUndoneSeqs();
      if committed {
        db.tables := db.tables.(events := db.tables.events[(roomId, seqNum) := Row(userId, kind, payload)]);
      }
    }

    method GetActiveEvents(upTo: Option<int>) returns (active: seq<Event>)
      ensures active == Query(State(), upTo)
    {
      ghost var m := if upTo.Some? then UpTo(events, upTo.value) else events;
      var keys := Sorted(events.Keys);
      if upTo.Some? {
        keys := FilterUpTo(keys, upTo.value);
        BoundedKeys(events, upTo.value);
      }
      SortedKeys(m);
      var undone := ScanUndone(events, keys, m);
      active := SelectVisible(events, keys, undone, m);
    }

    /** Painting the visible events over the snapshot, or over the background. */
    method RenderPng(upTo: Option<int>) returns (canvas: C)
      ensures canvas == Picture(paint, blank, State(), upTo)
    {
      var active := GetActiveEvents(upTo);
      if snapshot.Some? { canvas := snapshot.value; } else { canvas := blank; }
      var i := 0;
      while i < |active|
        invariant 0 <= i <= |active|
        invariant canvas == Render(paint, Background(snapshot, blank), active[..i])
      {
        canvas := paint(canvas, Plain(active[i]));
        assert active[..i + 1][..i] == active[..i];
        i := i + 1;
      }
      assert active[..|active|] == active;
    }

    /* The three steps of one turn of the snapshot loop that touch the state.
       Other threads add events between them. */

    method TakeCut() returns (cut: int, due: bool)
      ensures cut == lastSeq && (due <==> lastSeq > lastSnapshotSeq)
    {
      cut, due := lastSeq, lastSeq > lastSnapshotSeq;
    }

    /** A transaction that does not commit ends the turn: nothing is pruned. */
    method SaveSnapshot(cut: int, png: C, committed: bool) returns (saved: bool)
      modifies db
      ensures saved == committed
      ensures db.tables ==
        if committed then old(db.tables).(snapshots := old(db.tables).snapshots[roomId := (cut, png)])
        else old(db.tables)
    {
      if committed {
        db.tables := db.tables.(snapshots := db.tables.snapshots[roomId := (cut, png)]);
      }
      saved := committed;
    }

    method PruneUpTo(cut: int, png: C)
      modifies this
      ensures State() == Prune(old(State()), cut, png)
    {
      events := DropUpTo(events, cut);
      lastSnapshotSeq := cut;
      snapshot := Some(png);
      RecalculateUndoneSeqs();
    }
  }

  /** The keys of a log in ascending order. */
  ghost predicate KeysOf(m: Log, keys: seq<int>) {
    && Ascending(keys)
    && (forall k :: k in keys <==> k in m)
    && (forall j :: 0 <= j < |keys| ==> keys[j] in m)
  }

  lemma SortedKeys(m: Log)
    ensures KeysOf(m, Sorted(m.Keys))
  {
    assert forall j :: 0 <= j < |Sorted(m.Keys)| ==> Sorted(m.Keys)[j] in Sorted(m.Keys);
  }

  /** The reverse scan. The server runs it both to refresh its cache and for
      each query; `m` is the part of the log the keys range over. */
  method ScanUndone(events: Log, keys: seq<int>, ghost m: Log) returns (undone: set<int>)
    requires KeysOf(m, keys)
    requires forall j :: 0 <= j < |keys| ==> keys[j] in events && events[keys[j]] == m[keys[j]]
    ensures undone == UndoneSet(m)
  {
    undone := {};
    var i := |keys|;
    while i > 0
      invariant 0 <= i <= |keys|
      invariant undone == TargetsFrom(m, keys, i)
    {
      i := i - 1;
      ScanStep(m, keys, i);
      var event := events[keys[i]];
      if event.kind == Undo && keys[i] !in undone && event.payload.targetSeq.Some? {
        undone := undone + {event.payload.targetSeq.value};
      }
    }
    ScanComplete(m, keys);
  }

  method SelectVisible(events: Log, keys: seq<int>, undone: set<int>, ghost m: Log) returns (active: seq<Event>)
    requires KeysOf(m, keys) && undone == UndoneSet(m)
    requires forall j :: 0 <= j < |keys| ==> keys[j] in events && events[keys[j]] == m[keys[j]]
    ensures active == ActiveList(m)
  {
    active := [];
    var i := 0;
    while i < |keys|
      invariant 0 <= i <= |keys|
      invariant active == Visible(m, keys[..i], undone)
    {
      assert keys[..i + 1][..i] == keys[..i];
      var event := events[keys[i]];
      if event.kind != Undo && keys[i] !in undone {
        active := active + [event];
      }
      i := i + 1;
    }
    assert keys[..|keys|] == keys;
    VisibleIsActive(m, keys);
  }

  /** The search for the event a resent id belongs to. */
  method FindExisting(events: Log, lastSeq: int, id: Option<string>) returns (seqNum: int)
    ensures seqNum == ExistingSeq(events, lastSeq, id)
  {
    var keys := Sorted(events.Keys);
    var i := 0;
    while i < |keys|
      invariant 0 <= i <= |keys|
      invariant forall j :: 0 <= j < i ==> keys[j] !in Holders(events, id)
    {
      assert keys[i] in keys;
      if events[keys[i]].clientEventId == id {
        FirstHolder(events, lastSeq, id, keys, i);
        return keys[i];
      }
      i := i + 1;
    }
    NoHolder(events, lastSeq, id, keys);
    return lastSeq;
  }

  /** The events that survive deleting, one by one, the keys at or below the cut. */
  method DropUpTo(events: Log, cut: int) returns (kept: Log)
    ensures kept == After(events, cut)
  {
    kept := events;
    var keys := Sorted(events.Keys);
    var i := 0;
    while i < |keys|
      invariant 0 <= i <= |keys|
      invariant kept == Dropped(events, keys[..i], cut)
    {
      DroppedStep(events, keys, i, cut);
      if keys[i] <= cut {
        kept := kept - {keys[i]};
      }
      i := i + 1;
    }
    DroppedAll(events, keys, cut);
  }

  /** Filing the selected rows, which arrive ordered by sequence number. */
  method ReadRows<C>(tables: Tables<C>, roomId: int, above: int, rows: seq<int>) returns (events: Log, lastSeq: int)
    requires Ascending(rows) && forall j :: 0 <= j < |rows| ==> (roomId, rows[j]) in tables.events && rows[j] > above
    ensures events == LoadedPart(tables, roomId, above, rows)
    ensures lastSeq == if rows == [] then above else rows[|rows| - 1]
  {
    events, lastSeq := map[], above;
    var i := 0;
    while i < |rows|
      invariant 0 <= i <= |rows|
      invariant lastSeq == if i == 0 then above else rows[i - 1]
      invariant events == LoadedPart(tables, roomId, above, rows[..i])
    {
      var seqNum := rows[i];
      var row := tables.events[(roomId, seqNum)];
      assert rows[..i + 1][..i] == rows[..i];
      events := events[seqNum := Event(seqNum, row.userId, row.kind, row.payload, None)];
      if seqNum > lastSeq { lastSeq := seqNum; }
      i := i + 1;
    }
    assert rows[..|rows|] == rows;
  }

  function FilterUpTo(keys: seq<int>, bound: int): (r: seq<int>)
    ensures forall k :: k in r <==> k in keys && k <= bound
  {
    if keys == [] then []
    else
      var last := keys[|keys| - 1];
      assert keys == keys[..|keys| - 1] + [last];
      FilterUpTo(keys[..|keys| - 1], bound) + if last <= bound then [last] else []
  }

  lemma {:induction false} FilterAscending(keys: seq<int>, bound: int)
    requires Ascending(keys)
    ensures Ascending(FilterUpTo(keys, bound))
  {
    if keys != [] {
      var rest := FilterUpTo(keys[..|keys| - 1], bound);
      FilterAscending(keys[..|keys| - 1], bound);
      forall i | 0 <= i < |rest| ensures rest[i] < keys[|keys| - 1] {
        assert rest[i] in keys[..|keys| - 1];
      }
    }
  }

  lemma BoundedKeys(m: Log, bound: int)
    ensures FilterUpTo(Sorted(m.Keys), bound) == Sorted(UpTo(m, bound).Keys)
  {
    FilterAscending(Sorted(m.Keys), bound);
    AscendingUnique(FilterUpTo(Sorted(m.Keys), bound), Sorted(UpTo(m, bound).Keys));
  }

  function AtOrBelow(keys: seq<int>, cut: int): set<int> {
    set k | k in keys && k <= cut
  }

  function Dropped(events: Log, keys: seq<int>, cut: int): Log {
    events - AtOrBelow(keys, cut)
  }

  lemma DroppedStep(events: Log, keys: seq<int>, i: nat, cut: int)
    requires i < |keys|
    ensures Dropped(events, keys[..i + 1], cut) ==
      if keys[i] <= cut then Dropped(events, keys[..i], cut) - {keys[i]} else Dropped(events, keys[..i], cut)
  {
    assert keys[..i + 1] == keys[..i] + [keys[i]];
    assert AtOrBelow(keys[..i + 1], cut) == AtOrBelow(keys[..i], cut) + if keys[i] <= cut then {keys[i]} else {};
  }

  lemma DroppedAll(events: Log, keys: seq<int>, cut: int)
    requires forall k :: k in keys <==> k in events
    ensures Dropped(events, keys[..|keys|], cut) == After(events, cut)
  {
    assert keys[..|keys|] == keys;
    assert Dropped(events, keys, cut).Keys == After(events, cut).Keys;
  }

  /* ---------- reloading row by row ---------- */

  function LoadedPart<C>(tables: Tables<C>, roomId: int, above: int, keys: seq<int>): Log
    requires forall j :: 0 <= j < |keys| ==> (roomId, keys[j]) in tables.events
  {
    if keys == [] then map[]
    else
      var n := keys[|keys| - 1];
      var row := tables.events[(roomId, n)];
      LoadedPart(tables, roomId, above, keys[..|keys| - 1])[n := Event(n, row.userId, row.kind, row.payload, None)]
  }

  lemma {:induction false} LoadedPartIs<C>(tables: Tables<C>, roomId: int, above: int, keys: seq<int>)
    requires forall j :: 0 <= j < |keys| ==> (roomId, keys[j]) in tables.events && keys[j] > above
    ensures LoadedPart(tables, roomId, above, keys).Keys == set k | k in keys
    ensures forall k :: k in keys ==>
      k in LoadedEvents(tables, roomId, above) &&
      LoadedPart(tables, roomId, above, keys)[k] == LoadedEvents(tables, roomId, above)[k]
  {
    if keys != [] {
      assert keys == keys[..|keys| - 1] + [keys[|keys| - 1]];
      LoadedPartIs(tables, roomId, above, keys[..|keys| - 1]);
    }
  }

  lemma RowsPresent<C>(tables: Tables<C>, roomId: int, above: int)
    ensures forall j :: 0 <= j < |Sorted(RoomSeqs(tables, roomId, above))| ==>
      var n := Sorted(RoomSeqs(tables, roomId, above))[j];
      (roomId, n) in tables.events && n > above
  {
    var rows := Sorted(RoomSeqs(tables, roomId, above));
    assert forall j :: 0 <= j < |rows| ==> rows[j] in rows;
  }

  lemma LoadedWhole<C>(tables: Tables<C>, roomId: int, above: int, rows: seq<int>)
    requires forall k :: k in rows <==> k in RoomSeqs(tables, roomId, above)
    requires forall j :: 0 <= j < |rows| ==> (roomId, rows[j]) in tables.events && rows[j] > above
    ensures LoadedPart(tables, roomId, above, rows) == LoadedEvents(tables, roomId, above)
  {
    LoadedPartIs(tables, roomId, above, rows);
  }

  /* ---------- what a reverse scan has gathered so far ---------- */

  ghost function Reach(m: Log, s: int): set<int>
    requires s in m
  {
    if Effective(m, s) && m[s].payload.targetSeq.Some? then {m[s].payload.targetSeq.value} else {}
  }

  ghost function TargetsFrom(m: Log, keys: seq<int>, i: nat): set<int>
    requires i <= |keys| && forall j :: 0 <= j < |keys| ==> keys[j] in m
    decreases |keys| - i
  {
    if i == |keys| then {} else TargetsFrom(m, keys, i + 1) + Reach(m, keys[i])
  }

  lemma {:induction false} TargetsFromHas(m: Log, keys: seq<int>, i: nat, x: int)
    requires i <= |keys| && forall j :: 0 <= j < |keys| ==> keys[j] in m
    ensures x in TargetsFrom(m, keys, i) <==>
      exists j :: i <= j < |keys| && Effective(m, keys[j]) && Targets(m[keys[j]], x)
    decreases |keys| - i
  {
    if i < |keys| {
      TargetsFromHas(m, keys, i + 1, x);
    }
  }

  /** At its turn an undo counts exactly when the scan has not met its number. */
  lemma ScanStep(m: Log, keys: seq<int>, i: nat)
    requires KeysOf(m, keys) && i < |keys|
    ensures Effective(m, keys[i]) <==> m[keys[i]].kind == Undo && keys[i] !in TargetsFrom(m, keys, i + 1)
  {
    var s := keys[i];
    TargetsFromHas(m, keys, i + 1, s);
    if m[s].kind == Undo && !Effective(m, s) {
      var t :| t in m && t > s && Targets(m[t], s) && Effective(m, t);
      assert t in keys;
      var j :| 0 <= j < |keys| && keys[j] == t;
    }
  }

  lemma ScanComplete(m: Log, keys: seq<int>)
    requires KeysOf(m, keys)
    ensures TargetsFrom(m, keys, 0) == UndoneSet(m)
  {
    forall x ensures x in TargetsFrom(m, keys, 0) <==> x in UndoneSet(m) {
      TargetsFromHas(m, keys, 0, x);
      UndoneSetHas(m, x);
      if Undone(m, x) {
        var t :| t in m && Effective(m, t) && Targets(m[t], x);
        assert t in keys;
        var j :| 0 <= j < |keys| && keys[j] == t;
      }
    }
  }

  function Visible(m: Log, keys: seq<int>, undone: set<int>): seq<Event>
    requires forall j :: 0 <= j < |keys| ==> keys[j] in m
  {
    if keys == [] then []
    else
      var last := keys[|keys| - 1];
      Visible(m, keys[..|keys| - 1], undone) +
      if m[last].kind != Undo && last !in undone then [m[last]] else []
  }

  lemma {:induction false} VisiblePicks(m: Log, keys: seq<int>) returns (shown: seq<int>)
    requires Ascending(keys) && forall j :: 0 <= j < |keys| ==> keys[j] in m
    ensures Ascending(shown)
    ensures forall k :: k in shown <==> k in keys && Active(m, k)
    ensures forall j :: 0 <= j < |shown| ==> shown[j] in m
    ensures Visible(m, keys, UndoneSet(m)) == Pick(m, shown)
  {
    if keys == [] {
      shown := [];
    } else {
      var last := keys[|keys| - 1];
      var before := VisiblePicks(m, keys[..|keys| - 1]);
      assert keys == keys[..|keys| - 1] + [last];
      UndoneSetHas(m, last);
      forall j | 0 <= j < |before| ensures before[j] < last { assert before[j] in before; }
      if Active(m, last) {
        shown := before + [last];
        assert Pick(m, shown) == Pick(m, before) + [m[last]];
      } else {
        shown := before;
      }
    }
  }

  lemma VisibleIsActive(m: Log, keys: seq<int>)
    requires KeysOf(m, keys)
    ensures Visible(m, keys, UndoneSet(m)) == ActiveList(m)
  {
    var shown := VisiblePicks(m, keys);
    AscendingUnique(shown, Sorted(ActiveKeys(m)));
  }

  lemma FirstHolder(m: Log, lastSeq: int, id: Option<string>, keys: seq<int>, i: nat)
    requires keys == Sorted(m.Keys) && i < |keys|
    requires keys[i] in Holders(m, id)
    requires forall j :: 0 <= j < i ==> keys[j] !in Holders(m, id)
    ensures ExistingSeq(m, lastSeq, id) == keys[i]
  {
    var hs := Sorted(Holders(m, id));
    assert keys[i] in hs;
    assert hs[0] in hs && hs[0] in Holders(m, id);
    assert hs[0] in keys;
    var j :| 0 <= j < |keys| && keys[j] == hs[0];
  }

  lemma NoHolder(m: Log, lastSeq: int, id: Option<string>, keys: seq<int>)
    requires keys == Sorted(m.Keys)
    requires forall j :: 0 <= j < |keys| ==> keys[j] !in Holders(m, id)
    ensures ExistingSeq(m, lastSeq, id) == lastSeq
  {
    assert Holders(m, id) == {} by {
      forall s | s in m ensures s !in Holders(m, id) {
        assert s in keys;
      }
    }
  }
}

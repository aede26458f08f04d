/** One room's whiteboard as a value: the live state of the server, the rows it
    keeps in the database, and what each operation makes of them. */
module WhiteboardBoard {
  import opened Common
  import opened WhiteboardLog

  const ID_WINDOW := 1000

  datatype Row = Row(userId: int, kind: Kind, payload: Payload)

  /** The two whiteboard tables; events are filed by room and sequence number. */
  datatype Tables<C> = Tables(events: map<(int, int), Row>, snapshots: map<int, (int, C)>)

  datatype Board<C> = Board(
    lastSeq: int,
    lastSnapshotSeq: int,
    snapshot: Option<C>,
    events: Log,
    undoneSeqs: set<int>,
    processedIds: set<string>,
    idHistory: seq<string>)

  ghost function EmptyBoard<C>(): Board<C> {
    Board(0, 0, None, map[], {}, {}, [])
  }

  /** An event id takes part in duplicate detection only when it is non-empty. */
  predicate HasId(id: Option<string>) {
    id.Some? && id.value != ""
  }

  predicate Refused<C>(b: Board<C>, id: Option<string>) {
    HasId(id) && id.value in b.processedIds
  }

  ghost function Holders(m: Log, id: Option<string>): set<int> {
    set s | s in m && m[s].clientEventId == id
  }

  /** The number reported for a refused resend: the first retained event with
      that id, or the last number when none is retained. */
  ghost function ExistingSeq(m: Log, lastSeq: int, id: Option<string>): int {
    var keys := Sorted(Holders(m, id));
    if keys == [] then lastSeq else keys[0]
  }

  function Remember(history: seq<string>, id: string): seq<string> {
    var h := history + [id];
    if |h| > ID_WINDOW then h[1..] else h
  }

  function RememberSet(ids: set<string>, history: seq<string>, id: string): set<string> {
    var h := history + [id];
    if |h| > ID_WINDOW then ids + {id} - {h[0]} else ids + {id}
  }

  ghost function AddEvent<C>(b: Board<C>, userId: int, kind: Kind, payload: Payload, id: Option<string>)
    : (Board<C>, int)
  {
    if Refused(b, id) then
      (b, ExistingSeq(b.events, b.lastSeq, id))
    else
      var n := b.lastSeq + 1;
      var events := b.events[n := Event(n, userId, kind, payload, id)];
      (b.(lastSeq := n,
          events := events,
          undoneSeqs := UndoneSet(events),
          processedIds := if HasId(id) then RememberSet(b.processedIds, b.idHistory, id.value) else b.processedIds,
          idHistory := if HasId(id) then Remember(b.idHistory, id.value) else b.idHistory),
       n)
  }

  function InsertEvent<C>(db: Tables<C>, roomId: int, seqNum: int, row: Row): Tables<C> {
    db.(events := db.events[(roomId, seqNum) := row])
  }

  /** What `get_active_events` answers, with or without a bound. */
  ghost function Query<C>(b: Board<C>, upTo: Option<int>): seq<Event> {
    ActiveList(if upTo.Some? then UpTo(b.events, upTo.value) else b.events)
  }

  function Background<C>(snapshot: Option<C>, blank: C): C {
    if snapshot.Some? then snapshot.value else blank
  }

  /** The canvas a render produces: the visible events over the last snapshot. */
  ghost function Picture<C>(paint: (C, Event) -> C, blank: C, b: Board<C>, upTo: Option<int>): C {
    Render(paint, Background(b.snapshot, blank), Query(b, upTo))
  }

  /** Dropping the events that a saved snapshot already shows. */
  ghost function Prune<C>(b: Board<C>, cut: int, png: C): Board<C> {
    var events := After(b.events, cut);
    b.(events := events, undoneSeqs := UndoneSet(events), lastSnapshotSeq := cut, snapshot := Some(png))
  }

  function RoomSeqs<C>(db: Tables<C>, roomId: int, above: int): set<int> {
    set k | k in db.events && k.0 == roomId && k.1 > above :: k.1
  }

  function LoadedEvents<C>(db: Tables<C>, roomId: int, above: int): Log {
    map s | s in RoomSeqs(db, roomId, above) ::
      Event(s, db.events[(roomId, s)].userId, db.events[(roomId, s)].kind, db.events[(roomId, s)].payload, None)
  }

  /** The board rebuilt from the tables; the id window is not touched. */
  ghost function Loaded<C>(b: Board<C>, db: Tables<C>, roomId: int): Board<C> {
    var base := if roomId in db.snapshots then db.snapshots[roomId].0 else 0;
    var events := LoadedEvents(db, roomId, base);
    b.(lastSnapshotSeq := base,
       snapshot := if roomId in db.snapshots then Some(db.snapshots[roomId].1) else None,
       lastSeq := MaxOr(RoomSeqs(db, roomId, base), base),
       events := events,
       undoneSeqs := UndoneSet(events))
  }

  ghost function Cleared<C>(b: Board<C>): Board<C> {
    b.(lastSeq := 0, lastSnapshotSeq := 0, snapshot := None, events := map[], undoneSeqs := {})
  }
}

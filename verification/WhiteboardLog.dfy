/** The whiteboard's event log and what it means: which undos count, which
    events are visible, and what picture the visible events paint.

    A log maps sequence numbers to events. An undo event hides its target; a
    redo is an undo whose target is an undo. */
module WhiteboardLog {
  import opened Common

  datatype Kind = Pen | Eraser | Rect | Oval | Text | Undo

  /** A drawing payload after every `get` default has been filled in. */
  datatype Payload = Payload(
    targetSeq: Option<int>,
    points: seq<(int, int)>,
    rect: seq<int>,
    text: string,
    textPos: seq<int>,
    style: string)

  datatype Event = Event(
    seqNum: int,
    userId: int,
    kind: Kind,
    payload: Payload,
    clientEventId: Option<string>)

  type Log = map<int, Event>

  predicate Targets(e: Event, s: int) {
    e.kind == Undo && e.payload.targetSeq == Some(s)
  }

  ghost function Later(m: Log, s: int): set<int> {
    set t | t in m && t > s
  }

  lemma LaterShrinks(m: Log, s: int, t: int)
    requires t in m && t > s
    ensures Later(m, t) < Later(m, s)
  {
    assert t in Later(m, s) && t !in Later(m, t);
  }

  /** An undo counts unless a later undo that counts targets it. */
  ghost predicate Effective(m: Log, s: int)
    decreases Later(m, s)
  {
    && s in m
    && m[s].kind == Undo
    && forall t | t in m && t > s && Targets(m[t], s) ::
         LaterShrinks(m, s, t);
         !Effective(m, t)
  }

  ghost predicate Undone(m: Log, s: int) {
    exists t :: t in m && Effective(m, t) && Targets(m[t], s)
  }

  ghost function UndoneSet(m: Log): set<int> {
    set t | t in m && Effective(m, t) && m[t].payload.targetSeq.Some? :: m[t].payload.targetSeq.value
  }

  lemma UndoneSetHas(m: Log, s: int)
    ensures s in UndoneSet(m) <==> Undone(m, s)
  {
    if s in UndoneSet(m) {
      var t :| t in m && Effective(m, t) && m[t].payload.targetSeq == Some(s);
      assert Targets(m[t], s);
    }
  }

  ghost predicate Active(m: Log, s: int) {
    s in m && m[s].kind != Undo && !Undone(m, s)
  }

  ghost function ActiveKeys(m: Log): set<int> {
    set s | s in m && Active(m, s)
  }

  /** The events at the given keys, in that order. */
  function Pick(m: Log, keys: seq<int>): (r: seq<Event>)
    requires forall i :: 0 <= i < |keys| ==> keys[i] in m
  {
    seq(|keys|, i requires 0 <= i < |keys| => m[keys[i]])
  }

  /** The visible events in sequence order: what `get_active_events` returns. */
  ghost function ActiveList(m: Log): seq<Event> {
    var keys := Sorted(ActiveKeys(m));
    assert forall i :: 0 <= i < |keys| ==> keys[i] in keys;
    Pick(m, keys)
  }

  function UpTo(m: Log, cut: int): Log {
    map s | s in m && s <= cut :: m[s]
  }

  function After(m: Log, cut: int): Log {
    map s | s in m && s > cut :: m[s]
  }

  /** Every undo targets a smaller sequence number than its own. */
  ghost predicate BackwardTargets(m: Log) {
    forall s, t :: s in m && Targets(m[s], t) ==> t < s
  }

  /** No undo that counts reaches across the cut, in either direction. */
  ghost predicate CleanCut(m: Log, cut: int) {
    forall s, t :: s in m && t in m && Effective(m, s) && Targets(m[s], t) ==> (s > cut <==> t > cut)
  }

  /** What a painter looks at: everything but the id the client gave the event. */
  function Plain(e: Event): Event {
    e.(clientEventId := None)
  }

  /** Painting a list of events onto a canvas, in order. */
  function Render<C>(paint: (C, Event) -> C, canvas: C, events: seq<Event>): C {
    if events == [] then canvas
    else paint(Render(paint, canvas, events[..|events| - 1]), Plain(events[|events| - 1]))
  }

  lemma {:induction false} RenderConcat<C>(paint: (C, Event) -> C, canvas: C, xs: seq<Event>, ys: seq<Event>)
    ensures Render(paint, canvas, xs + ys) == Render(paint, Render(paint, canvas, xs), ys)
  {
    if ys == [] {
      assert xs + ys == xs;
    } else {
      assert (xs + ys)[..|xs + ys| - 1] == xs + ys[..|ys| - 1];
      RenderConcat(paint, canvas, xs, ys[..|ys| - 1]);
    }
  }

  /* ---------- the specification is the only one of its kind ---------- */

  /** Any set of undos closed under the recursive rule is the set of undos that count. */
  lemma EffectiveUnique(m: Log, e: set<int>)
    requires forall s :: s in m ==>
      (s in e <==> m[s].kind == Undo && forall t :: t in m && t > s && t in e ==> !Targets(m[t], s))
    ensures forall s :: s in m ==> (s in e <==> Effective(m, s))
  {
    forall s | s in m ensures s in e <==> Effective(m, s) {
      EffectiveUniqueAt(m, e, s);
    }
  }

  lemma {:induction false} EffectiveUniqueAt(m: Log, e: set<int>, s: int)
    requires s in m
    requires forall s :: s in m ==>
      (s in e <==> m[s].kind == Undo && forall t :: t in m && t > s && t in e ==> !Targets(m[t], s))
    ensures s in e <==> Effective(m, s)
    decreases Later(m, s)
  {
    forall t | t in m && t > s ensures t in e <==> Effective(m, t) {
      LaterShrinks(m, s, t);
      EffectiveUniqueAt(m, e, t);
    }
  }

  /* ---------- what an event's fate depends on ---------- */

  /** Two logs that agree from `s` on, except at ignored events whose undos
      reach no event that matters, agree on whether the undo at `s` counts. */
  lemma {:induction false} EffectiveSame(m: Log, m': Log, s: int, ignored: set<int>)
    requires s !in ignored && s in m && s in m' && m[s] == m'[s]
    requires forall t :: t > s && t !in ignored ==> (t in m <==> t in m')
    requires forall t :: t > s && t !in ignored && t in m ==> m[t] == m'[t]
    requires forall t, u :: t in ignored && Effective(m, t) && Targets(m[t], u) && u >= s && u in m ==> u in ignored
    requires forall t, u :: t in ignored && Effective(m', t) && Targets(m'[t], u) && u >= s && u in m' ==> u in ignored
    ensures Effective(m, s) <==> Effective(m', s)
    decreases Later(m, s)
  {
    forall t | t > s && t !in ignored && t in m ensures Effective(m, t) <==> Effective(m', t) {
      LaterShrinks(m, s, t);
      EffectiveSame(m, m', t, ignored);
    }
  }

  predicate Above(m: Log, n: int) {
    forall k :: k in m ==> k < n
  }

  /** Appending a drawing event leaves every undo as it was. */
  lemma AppendDraw(m: Log, n: int, e: Event)
    requires Above(m, n) && e.kind != Undo
    ensures forall s :: s in m ==> (Effective(m[n := e], s) <==> Effective(m, s))
    ensures ActiveKeys(m[n := e]) == ActiveKeys(m) + (if Undone(m, n) then {} else {n})
  {
    var m' := m[n := e];
    forall s | s in m ensures Effective(m', s) <==> Effective(m, s) {
      EffectiveSame(m, m', s, {n});
    }
    forall s ensures Undone(m', s) <==> Undone(m, s) {
      if Undone(m, s) { var t :| t in m && Effective(m, t) && Targets(m[t], s); assert Effective(m', t); }
    }
  }

  lemma SameActiveList(m: Log, m': Log)
    requires ActiveKeys(m) == ActiveKeys(m')
    requires forall s :: s in ActiveKeys(m) ==> m[s] == m'[s]
    ensures ActiveList(m) == ActiveList(m')
  {
    var keys := Sorted(ActiveKeys(m));
    assert forall i :: 0 <= i < |keys| ==> keys[i] in keys;
  }

  /* ---------- undo is deletion ---------- */

  lemma DeletionEffective(m: Log, n: int, e: Event, u: int)
    requires Above(m, n) && u in m && Targets(e, u)
    ensures Effective(m[n := e], n) && !Effective(m[n := e], u)
    ensures forall s :: s in m && s != u ==> (Effective(m[n := e], s) <==> Effective(m - {u}, s))
  {
    var m', d := m[n := e], m - {u};
    assert Effective(m', n);
    forall s | s in m && s != u ensures Effective(m', s) <==> Effective(d, s) {
      EffectiveSame(m', d, s, {u, n});
    }
  }

  /** Appending an undo of a logged event, drawing or undo, shows exactly what
      the log without that event shows. */
  lemma UndoIsDeletion(m: Log, n: int, e: Event, u: int)
    requires Above(m, n) && u in m && Targets(e, u)
    ensures ActiveKeys(m[n := e]) == ActiveKeys(m - {u})
    ensures ActiveList(m[n := e]) == ActiveList(m - {u})
  {
    var m', d := m[n := e], m - {u};
    DeletionEffective(m, n, e, u);
    forall s ensures Active(m', s) <==> Active(d, s) {
      if s == u {
        assert Targets(m'[n], u);
      } else if s in m {
        if Undone(m', s) {
          var t :| t in m' && Effective(m', t) && Targets(m'[t], s);
          assert t != n && t != u && Effective(d, t);
        }
        if Undone(d, s) {
          var t :| t in d && Effective(d, t) && Targets(d[t], s);
          assert Effective(m', t);
        }
      }
    }
    assert ActiveKeys(m') == ActiveKeys(d);
    SameActiveList(m', d);
  }

  /** A log extended by events numbered from `n` on. */
  function Extend(m: Log, n: int, es: seq<Event>): Log {
    if es == [] then m
    else Extend(m, n, es[..|es| - 1])[n + |es| - 1 := es[|es| - 1]]
  }

  lemma {:induction false} ExtendAbove(m: Log, n: int, es: seq<Event>)
    requires Above(m, n)
    ensures Above(Extend(m, n, es), n + |es|)
  {
    if es != [] { ExtendAbove(m, n, es[..|es| - 1]); }
  }

  /** An undo of `u`, then each event an undo of the one before, numbered from `n`. */
  predicate UndoChain(n: int, u: int, es: seq<Event>) {
    forall i :: 0 <= i < |es| ==> Targets(es[i], if i == 0 then u else n + i - 1)
  }

  lemma ChainEnd(n: int, u: int, es: seq<Event>)
    requires UndoChain(n, u, es) && |es| > 1
    ensures var before := es[..|es| - 2];
            && UndoChain(n, u, before) && Targets(es[|es| - 1], n + |before|)
            && es == before + [es[|es| - 2]] + [es[|es| - 1]]
  {
  }

  /** Undo, undo of the undo, and so on: an even chain changes nothing and an
      odd one deletes the event it starts at. */
  lemma {:induction false} NestedUndo(m: Log, n: int, u: int, es: seq<Event>)
    requires Above(m, n) && u in m && UndoChain(n, u, es)
    ensures ActiveList(Extend(m, n, es)) == ActiveList(Peeled(m, u, |es|))
  {
    if |es| == 1 {
      OneUndo(m, n, u, es);
    } else if |es| > 1 {
      var before, e, undo := es[..|es| - 2], es[|es| - 2], es[|es| - 1];
      ChainEnd(n, u, es);
      NestedUndo(m, n, u, before);
      TwoMore(m, n, before, e, undo);
      PeeledTwice(m, u, |before|);
    }
  }

  lemma OneUndo(m: Log, n: int, u: int, es: seq<Event>)
    requires Above(m, n) && u in m && |es| == 1 && Targets(es[0], u)
    ensures ActiveList(Extend(m, n, es)) == ActiveList(m - {u})
  {
    assert Extend(m, n, es[..0]) == m;
    UndoIsDeletion(m, n, es[0], u);
  }

  /** What `k` nested undos of `u` leave of a log. */
  function Peeled(m: Log, u: int, k: nat): Log {
    if k % 2 == 0 then m else m - {u}
  }

  lemma PeeledTwice(m: Log, u: int, k: nat)
    ensures Peeled(m, u, k + 2) == Peeled(m, u, k)
  {
  }

  /** An event and its undo filed after others show what the others show. */
  lemma TwoMore(m: Log, n: int, before: seq<Event>, e: Event, undo: Event)
    requires Above(m, n) && Targets(undo, n + |before|)
    ensures ActiveList(Extend(m, n, before + [e] + [undo])) == ActiveList(Extend(m, n, before))
  {
    ExtendAbove(m, n, before);
    ExtendTwice(m, n, before, e, undo);
    UndoneUndo(Extend(m, n, before), Extend(m, n, before + [e] + [undo]), n + |before|, e, undo);
  }

  lemma ExtendTwice(m: Log, n: int, es: seq<Event>, e: Event, e': Event)
    ensures Extend(m, n, es + [e] + [e']) == Extend(m, n, es)[n + |es| := e][n + |es| + 1 := e']
  {
    assert (es + [e])[..|es|] == es;
    assert (es + [e] + [e'])[..|es| + 1] == es + [e];
  }

  lemma UndoneUndo(m: Log, m': Log, n: int, e: Event, undo: Event)
    requires Above(m, n) && Targets(undo, n) && m' == m[n := e][n + 1 := undo]
    ensures ActiveList(m') == ActiveList(m)
  {
    UndoIsDeletion(m[n := e], n + 1, undo, n);
    assert m[n := e] - {n} == m;
  }

  /* ---------- cutting the log ---------- */

  /** A query bounded by a sequence number ignores every later event. */
  lemma BoundedQueryStable(m: Log, n: int, e: Event, cut: int)
    requires cut < n
    ensures UpTo(m[n := e], cut) == UpTo(m, cut)
  {
  }

  /** What counts above a cut is decided above it. */
  lemma AfterEffective(m: Log, cut: int)
    ensures forall s :: s > cut ==> (Effective(After(m, cut), s) <==> Effective(m, s))
  {
    var m' := After(m, cut);
    forall s | s > cut && s in m ensures Effective(m', s) <==> Effective(m, s) {
      EffectiveSame(m', m, s, {});
    }
  }

  lemma AfterActive(m: Log, cut: int)
    requires CleanCut(m, cut)
    ensures forall s :: s > cut ==> (Active(After(m, cut), s) <==> Active(m, s))
  {
    var m' := After(m, cut);
    AfterEffective(m, cut);
    forall s | s > cut && s in m ensures Undone(m', s) <==> Undone(m, s) {
      if Undone(m, s) {
        var t :| t in m && Effective(m, t) && Targets(m[t], s);
        assert t in m' && Effective(m', t);
      }
      if Undone(m', s) {
        var t :| t in m' && Effective(m', t) && Targets(m'[t], s);
        assert Effective(m, t);
      }
    }
  }

  lemma UpToActive(m: Log, cut: int)
    requires CleanCut(m, cut)
    ensures forall s :: s <= cut ==> (Active(UpTo(m, cut), s) <==> Active(m, s))
  {
    var m' := UpTo(m, cut);
    var late := set s | s in m && s > cut;
    forall s | s <= cut && s in m ensures Effective(m', s) <==> Effective(m, s) {
      EffectiveSame(m', m, s, late);
    }
    forall s | s <= cut && s in m ensures Undone(m', s) <==> Undone(m, s) {
      if Undone(m, s) {
        var t :| t in m && Effective(m, t) && Targets(m[t], s);
        assert t in m' && Effective(m', t);
      }
      if Undone(m', s) {
        var t :| t in m' && Effective(m', t) && Targets(m'[t], s);
        assert Effective(m, t);
      }
    }
  }

  /** Each event is filed under its own sequence number. */
  predicate WellKeyed(m: Log) {
    forall s :: s in m ==> m[s].seqNum == s
  }

  /** On either side the cut hides nothing that is shown, and shows nothing that is hidden. */
  ghost predicate SeamlessCut(m: Log, cut: int) {
    && (forall s :: s in m && s <= cut ==> (Active(UpTo(m, cut), s) <==> Active(m, s)))
    && (forall s :: s in m && s > cut ==> (Active(After(m, cut), s) <==> Active(m, s)))
  }

  lemma PickConcat(m: Log, a: Log, b: Log, lo: seq<int>, hi: seq<int>)
    requires forall i :: 0 <= i < |lo| ==> lo[i] in a
    requires forall i :: 0 <= i < |hi| ==> hi[i] in b
    requires forall k :: k in a ==> k in m && m[k] == a[k]
    requires forall k :: k in b ==> k in m && m[k] == b[k]
    ensures forall i :: 0 <= i < |lo + hi| ==> (lo + hi)[i] in m
    ensures Pick(m, lo + hi) == Pick(a, lo) + Pick(b, hi)
  {
    forall i | 0 <= i < |lo + hi| ensures (lo + hi)[i] in m {
      if i < |lo| { assert (lo + hi)[i] == lo[i]; } else { assert (lo + hi)[i] == hi[i - |lo|]; }
    }
    forall i | 0 <= i < |lo + hi| ensures Pick(m, lo + hi)[i] == (Pick(a, lo) + Pick(b, hi))[i] {
      if i < |lo| { assert (lo + hi)[i] == lo[i]; } else { assert (lo + hi)[i] == hi[i - |lo|]; }
    }
  }

  lemma ActiveKeysSplit(m: Log, cut: int)
    requires SeamlessCut(m, cut)
    ensures Sorted(ActiveKeys(m)) == Sorted(ActiveKeys(UpTo(m, cut))) + Sorted(ActiveKeys(After(m, cut)))
  {
    SortedSplit(ActiveKeys(m), cut);
    assert (set x | x in ActiveKeys(m) && x <= cut) == ActiveKeys(UpTo(m, cut));
    assert (set x | x in ActiveKeys(m) && x > cut) == ActiveKeys(After(m, cut));
  }

  lemma SeamlessCutSplits(m: Log, cut: int)
    requires SeamlessCut(m, cut)
    ensures ActiveList(m) == ActiveList(UpTo(m, cut)) + ActiveList(After(m, cut))
  {
    ActiveKeysSplit(m, cut);
    var lo, hi := Sorted(ActiveKeys(UpTo(m, cut))), Sorted(ActiveKeys(After(m, cut)));
    assert forall i :: 0 <= i < |lo| ==> lo[i] in lo;
    assert forall i :: 0 <= i < |hi| ==> hi[i] in hi;
    PickConcat(m, UpTo(m, cut), After(m, cut), lo, hi);
  }

  /** The visible events are the visible events of the two halves exactly when
      each half by itself gives its events the visibility the whole log does. */
  lemma CutExact(m: Log, cut: int)
    requires WellKeyed(m)
    ensures ActiveList(m) == ActiveList(UpTo(m, cut)) + ActiveList(After(m, cut)) <==> SeamlessCut(m, cut)
  {
    if SeamlessCut(m, cut) {
      SeamlessCutSplits(m, cut);
    }
    if ActiveList(m) == ActiveList(UpTo(m, cut)) + ActiveList(After(m, cut)) {
      forall s | s in m
        ensures if s <= cut then Active(UpTo(m, cut), s) <==> Active(m, s)
                else Active(After(m, cut), s) <==> Active(m, s)
      {
        ListedWhenActive(m, s);
        ListedWhenActive(UpTo(m, cut), s);
        ListedWhenActive(After(m, cut), s);
      }
    }
  }

  /** An event is listed exactly when it is active. */
  lemma ListedWhenActive(m: Log, s: int)
    requires WellKeyed(m)
    ensures (exists e :: e in ActiveList(m) && e.seqNum == s) <==> Active(m, s)
  {
    var keys := Sorted(ActiveKeys(m));
    assert forall i :: 0 <= i < |keys| ==> keys[i] in keys;
    if Active(m, s) {
      assert s in keys;
      var i :| 0 <= i < |keys| && keys[i] == s;
      assert ActiveList(m)[i] == m[s];
    }
    if e :| e in ActiveList(m) && e.seqNum == s {
      var i :| 0 <= i < |keys| && ActiveList(m)[i] == e;
      assert keys[i] == s;
    }
  }

  /** With no counting undo reaching across the cut, painting the events up
      to the cut and then the rest paints the same picture as the whole log. */
  lemma CleanCutPaints<C>(paint: (C, Event) -> C, canvas: C, m: Log, cut: int)
    requires CleanCut(m, cut)
    ensures Render(paint, Render(paint, canvas, ActiveList(UpTo(m, cut))), ActiveList(After(m, cut)))
         == Render(paint, canvas, ActiveList(m))
  {
    UpToActive(m, cut);
    AfterActive(m, cut);
    SeamlessCutSplits(m, cut);
    RenderConcat(paint, canvas, ActiveList(UpTo(m, cut)), ActiveList(After(m, cut)));
  }

  /* ---------- without the client ids ---------- */

  function Anonymous(m: Log): Log {
    map s | s in m :: Plain(m[s])
  }

  function AnonymousList(events: seq<Event>): seq<Event> {
    seq(|events|, i requires 0 <= i < |events| => Plain(events[i]))
  }

  lemma {:induction false} AnonymousEffective(m: Log, s: int)
    ensures Effective(Anonymous(m), s) <==> Effective(m, s)
    decreases Later(m, s)
  {
    forall t | t in m && t > s ensures Effective(Anonymous(m), t) <==> Effective(m, t) {
      LaterShrinks(m, s, t);
      AnonymousEffective(m, t);
    }
  }

  lemma AnonymousResolves(m: Log)
    ensures UndoneSet(Anonymous(m)) == UndoneSet(m)
    ensures ActiveList(Anonymous(m)) == AnonymousList(ActiveList(m))
  {
    var m' := Anonymous(m);
    forall s ensures Effective(m', s) <==> Effective(m, s) { AnonymousEffective(m, s); }
    forall s ensures Undone(m', s) <==> Undone(m, s) {
      if Undone(m, s) { var t :| t in m && Effective(m, t) && Targets(m[t], s); assert Targets(m'[t], s); }
    }
    forall x ensures x in UndoneSet(m') <==> x in UndoneSet(m) {
      UndoneSetHas(m, x);
      UndoneSetHas(m', x);
    }
    assert ActiveKeys(m') == ActiveKeys(m);
    var keys := Sorted(ActiveKeys(m));
    assert forall i :: 0 <= i < |keys| ==> keys[i] in keys;
  }

  lemma {:induction false} RenderAnonymous<C>(paint: (C, Event) -> C, canvas: C, events: seq<Event>)
    ensures Render(paint, canvas, AnonymousList(events)) == Render(paint, canvas, events)
  {
    if events != [] {
      var pre := events[..|events| - 1];
      RenderAnonymous(paint, canvas, pre);
      assert AnonymousList(events)[..|events| - 1] == AnonymousList(pre);
    }
  }
}

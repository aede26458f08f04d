/** A user's undo and redo stacks against the log: when they agree, and how one
    drawing, undo or redo event changes what is visible and keeps them in
    agreement. */
module WhiteboardStacks {
  import opened Common
  import opened WhiteboardLog
  import opened WhiteboardReplica

  function Reverse(s: seq<int>): seq<int> {
    if s == [] then [] else [s[|s| - 1]] + Reverse(s[..|s| - 1])
  }

  /** An undo that reaches back to a logged drawing. */
  ghost predicate Hides(m: Log, s: int) {
    && s in m && m[s].kind == Undo && m[s].payload.targetSeq.Some?
    && m[s].payload.targetSeq.value in m && m[s].payload.targetSeq.value < s
    && m[m[s].payload.targetSeq.value].kind != Undo
  }

  /** Undos reach back to a drawing, or to an undo of a drawing. */
  ghost predicate Disciplined(m: Log) {
    forall s :: s in m && m[s].kind == Undo ==>
      && m[s].payload.targetSeq.Some?
      && m[s].payload.targetSeq.value in m
      && m[s].payload.targetSeq.value < s
      && (m[m[s].payload.targetSeq.value].kind == Undo ==> Hides(m, m[s].payload.targetSeq.value))
  }

  /** The one undo that counts against `x` is `k`. */
  ghost predicate OnlyUndo(m: Log, k: int, x: int) {
    && k in m && Effective(m, k) && Targets(m[k], x)
    && forall t :: t in m && Effective(m, t) && Targets(m[t], x) ==> t == k
  }

  ghost predicate Hidden(m: Log, u: int, redoOf: map<int, int>, x: int) {
    && x in m && m[x].kind != Undo && m[x].userId == u
    && x in redoOf && OnlyUndo(m, redoOf[x], x)
  }

  ghost predicate StacksAgree(m: Log, u: int, drawn: seq<int>, undone: seq<int>, redoOf: map<int, int>) {
    && (forall s :: s in drawn <==> Active(m, s) && m[s].userId == u)
    && Ascending(drawn + Reverse(undone))
    && (forall x :: x in undone ==> Hidden(m, u, redoOf, x))
  }

  ghost predicate Agrees(m: Log, u: int, w: Widget) {
    StacksAgree(m, u, w.drawn, w.undone, w.redoOf)
  }

  /** Every entry of the redo map names an undo of its key. */
  ghost predicate MapSound(m: Log, redoOf: map<int, int>) {
    forall y :: y in redoOf ==> redoOf[y] in m && Targets(m[redoOf[y]], y)
  }

  lemma MapGrows(m: Log, n: int, e: Event, redoOf: map<int, int>, k: int)
    requires MapSound(m, redoOf) && n !in m && Targets(e, k)
    ensures MapSound(m[n := e], redoOf[k := n])
  {
  }

  /* ---------- what one event does to visibility ---------- */

  /** Between the two logs only event `x` changes visibility, and every other
      drawing keeps its one counting undo. */
  ghost predicate ChangedOnlyAt(m: Log, m': Log, x: int) {
    && (forall s :: s in m ==> s in m' && m'[s] == m[s])
    && (forall s :: s != x ==> (Active(m', s) <==> Active(m, s)))
    && (forall k, y :: y != x && y in m && m[y].kind != Undo && OnlyUndo(m, k, y) ==> OnlyUndo(m', k, y))
  }

  lemma MapKept(m: Log, m': Log, redoOf: map<int, int>, x: int)
    requires MapSound(m, redoOf) && ChangedOnlyAt(m, m', x)
    ensures MapSound(m', redoOf)
  {
    forall y | y in redoOf ensures redoOf[y] in m' && Targets(m'[redoOf[y]], y) {
      var k := redoOf[y];
      assert k in m && Targets(m[k], y);
      assert k in m';
      assert m'[k] == m[k];
    }
  }

  /** Undoing a visible drawing hides it and nothing else. */
  lemma HideOne(m: Log, n: int, e: Event, x: int)
    requires Above(m, n) && Targets(e, x) && Active(m, x)
    ensures ActiveKeys(m[n := e]) == ActiveKeys(m) - {x}
    ensures OnlyUndo(m[n := e], n, x)
    ensures ChangedOnlyAt(m, m[n := e], x) && !Active(m[n := e], x)
  {
    var m' := m[n := e];
    assert Effective(m', n);
    forall s | s in m ensures Effective(m', s) <==> Effective(m, s) {
      if s != x { EffectiveSame(m', m, s, {n, x}); }
    }
    forall s | s in m && s != x ensures Undone(m', s) <==> Undone(m, s) {
      if Undone(m, s) { var t :| t in m && Effective(m, t) && Targets(m[t], s); assert Targets(m'[t], s); }
    }
    assert Targets(m'[n], x);
    forall k, y | y != x && OnlyUndo(m, k, y) ensures OnlyUndo(m', k, y) {
      assert k in m && Effective(m', k);
    }
  }

  lemma ShowEffective(m: Log, n: int, e: Event, k: int, x: int)
    requires Above(m, n) && Targets(e, k) && OnlyUndo(m, k, x) && x in m && m[x].kind != Undo
    ensures Effective(m[n := e], n) && !Effective(m[n := e], k)
    ensures forall s :: s in m && s != k ==> (Effective(m[n := e], s) <==> Effective(m, s))
  {
    var m' := m[n := e];
    assert Effective(m', n) && Targets(m'[n], k);
    forall s | s in m && s != k ensures Effective(m', s) <==> Effective(m, s) {
      if s != x { EffectiveSame(m', m, s, {n, k, x}); }
    }
  }

  /** Undoing the only undo of a hidden drawing shows it again, and nothing else. */
  lemma ShowOne(m: Log, n: int, e: Event, k: int, x: int)
    requires Above(m, n) && Targets(e, k)
    requires OnlyUndo(m, k, x) && x in m && m[x].kind != Undo
    ensures ActiveKeys(m[n := e]) == ActiveKeys(m) + {x}
    ensures ChangedOnlyAt(m, m[n := e], x) && Active(m[n := e], x)
  {
    var m' := m[n := e];
    ShowEffective(m, n, e, k, x);
    forall s | s in m && m[s].kind != Undo && s != x ensures Undone(m', s) <==> Undone(m, s) {
      if Undone(m, s) { var t :| t in m && Effective(m, t) && Targets(m[t], s); assert Targets(m'[t], s); }
    }
    assert !Undone(m', x);
    forall j, y | y != x && y in m && m[y].kind != Undo && OnlyUndo(m, j, y) ensures OnlyUndo(m', j, y) {
      assert j in m && j != k && Effective(m', j);
    }
  }

  lemma UselessEffective(m: Log, n: int, e: Event, k: int)
    requires Above(m, n) && Targets(e, k) && k in m && m[k].kind == Undo && !Effective(m, k)
    ensures Effective(m[n := e], n)
    ensures forall s :: s in m ==> (Effective(m[n := e], s) <==> Effective(m, s))
  {
    var m' := m[n := e];
    assert Effective(m', n) && Targets(m'[n], k) && !Effective(m', k);
    forall s | s in m ensures Effective(m', s) <==> Effective(m, s) {
      if s != k { EffectiveSame(m', m, s, {n, k}); }
    }
  }

  /** Undoing an undo that no longer counts changes nothing. */
  lemma UselessUndo(m: Log, n: int, e: Event, k: int)
    requires Above(m, n) && Targets(e, k) && k in m && m[k].kind == Undo && !Effective(m, k)
    ensures ActiveKeys(m[n := e]) == ActiveKeys(m) && ChangedOnlyAt(m, m[n := e], n)
  {
    var m' := m[n := e];
    UselessEffective(m, n, e, k);
    forall s | s in m && s != k ensures Undone(m', s) <==> Undone(m, s) {
      if Undone(m, s) { var t :| t in m && Effective(m, t) && Targets(m[t], s); assert Targets(m'[t], s); }
    }
    forall j, y | y in m && m[y].kind != Undo && OnlyUndo(m, j, y) ensures OnlyUndo(m', j, y) {
      assert j in m && Effective(m', j);
    }
  }

  /** A new drawing shows itself and nothing else. */
  lemma DrawOne(m: Log, n: int, e: Event)
    requires Above(m, n) && e.kind != Undo && !Undone(m, n)
    ensures ActiveKeys(m[n := e]) == ActiveKeys(m) + {n}
    ensures ChangedOnlyAt(m, m[n := e], n) && Active(m[n := e], n)
  {
    AppendDraw(m, n, e);
    assert n in ActiveKeys(m[n := e]);
    forall s | s != n ensures Active(m[n := e], s) <==> Active(m, s) {
      assert s in ActiveKeys(m[n := e]) <==> s in ActiveKeys(m);
    }
    forall k, y | y in m && OnlyUndo(m, k, y) ensures OnlyUndo(m[n := e], k, y) {
      assert k in m && Effective(m[n := e], k);
    }
  }

  lemma {:induction false} ReverseHas(s: seq<int>)
    ensures forall x :: x in Reverse(s) <==> x in s
  {
    if s != [] {
      ReverseHas(s[..|s| - 1]);
      assert s == s[..|s| - 1] + [s[|s| - 1]];
    }
  }

  /** Moving the last drawn number to the undone stack, or back, keeps the
      combined list as it is. */
  lemma StackTransfer(drawn: seq<int>, undone: seq<int>, x: int)
    ensures (drawn + [x]) + Reverse(undone) == drawn + Reverse(undone + [x])
  {
    assert (undone + [x])[..|undone|] == undone;
  }

  lemma DisciplinedBackward(m: Log)
    requires Disciplined(m)
    ensures BackwardTargets(m)
  {
  }

  lemma NothingAhead(m: Log, n: int)
    requires Disciplined(m) && Above(m, n)
    ensures !Undone(m, n)
  {
    forall t | t in m && Effective(m, t) ensures !Targets(m[t], n) {
      assert m[t].kind == Undo && m[t].payload.targetSeq.value < t;
    }
  }

  /** A step about `x`, an event of `who`, leaves another user's stacks in agreement. */
  lemma OthersAgree(m: Log, m': Log, v: int, w: Widget, x: int)
    requires Agrees(m, v, w) && ChangedOnlyAt(m, m', x)
    requires x in m' && m'[x].userId != v
    ensures Agrees(m', v, w)
  {
    forall y | y in w.undone ensures Hidden(m', v, w.redoOf, y) {
      assert Hidden(m, v, w.redoOf, y);
    }
  }

  lemma DisciplinedAppend(m: Log, n: int, e: Event)
    requires Disciplined(m) && Above(m, n)
    requires e.kind == Undo ==>
      && e.payload.targetSeq.Some? && e.payload.targetSeq.value in m
      && (m[e.payload.targetSeq.value].kind == Undo ==> Hides(m, e.payload.targetSeq.value))
    ensures Disciplined(m[n := e])
  {
    forall s | Hides(m, s) ensures Hides(m[n := e], s) {
    }
  }

  lemma DrawAuthorAgrees(m: Log, n: int, e: Event, u: int, w: Widget)
    requires Above(m, n) && !Undone(m, n) && e.kind != Undo && e.userId == u && Agrees(m, u, w)
    ensures StacksAgree(m[n := e], u, w.drawn + [n], [], map[])
  {
    DrawOne(m, n, e);
    var all := w.drawn + Reverse(w.undone);
    assert forall i :: 0 <= i < |w.drawn| ==> all[i] == w.drawn[i] && w.drawn[i] in w.drawn;
    assert forall s :: s in w.drawn ==> s in m;
    assert w.drawn + [n] + Reverse([]) == w.drawn + [n];
    assert Ascending(w.drawn + [n]);
  }

  /** What an undo of the author's latest visible drawing does to the log. */
  lemma UndoOnLog(m: Log, n: int, u: int, w: Widget)
    requires Above(m, n) && Disciplined(m) && Agrees(m, u, w) && w.drawn != []
    ensures var x := w.drawn[|w.drawn| - 1];
            var m' := m[n := Event(n, u, Undo, UndoPayload(x), None)];
            && Active(m, x) && m[x].userId == u
            && Disciplined(m') && ChangedOnlyAt(m, m', x) && ActiveKeys(m') == ActiveKeys(m) - {x}
  {
    var x := w.drawn[|w.drawn| - 1];
    var e := Event(n, u, Undo, UndoPayload(x), None);
    assert x in w.drawn;
    HideOne(m, n, e, x);
    DisciplinedAppend(m, n, e);
  }

  lemma UndoAuthorAgrees(m: Log, n: int, e: Event, u: int, w: Widget)
    requires Above(m, n) && Agrees(m, u, w) && w.drawn != []
    requires e == Event(n, u, Undo, UndoPayload(w.drawn[|w.drawn| - 1]), None)
    ensures var x := w.drawn[|w.drawn| - 1];
            StacksAgree(m[n := e], u, w.drawn[..|w.drawn| - 1], w.undone + [x], w.redoOf[x := n])
  {
    var x := w.drawn[|w.drawn| - 1];
    var m', rest, redoOf := m[n := e], w.drawn[..|w.drawn| - 1], w.redoOf[x := n];
    assert x in w.drawn;
    HideOne(m, n, e, x);
    assert w.drawn == rest + [x];
    StackTransfer(rest, w.undone, x);
    TopIsAlone(w.drawn, w.undone);
    DrawnAfterUndo(m, m', u, w.drawn, rest, x);
    HiddenAfterUndo(m, m', n, u, w, x);
  }

  lemma DrawnAfterUndo(m: Log, m': Log, u: int, drawn: seq<int>, rest: seq<int>, x: int)
    requires ChangedOnlyAt(m, m', x) && !Active(m', x)
    requires forall s :: s in drawn <==> Active(m, s) && m[s].userId == u
    requires forall s :: s in rest <==> s in drawn && s != x
    ensures forall s :: s in rest <==> Active(m', s) && m'[s].userId == u
  {
    forall s ensures s in rest <==> Active(m', s) && m'[s].userId == u {
      if s != x { assert Active(m', s) <==> Active(m, s); }
    }
  }

  lemma HiddenAfterUndo(m: Log, m': Log, n: int, u: int, w: Widget, x: int)
    requires ChangedOnlyAt(m, m', x) && OnlyUndo(m', n, x)
    requires x in m && m[x].kind != Undo && m[x].userId == u
    requires forall y :: y in w.undone ==> Hidden(m, u, w.redoOf, y)
    ensures forall y :: y in w.undone + [x] ==> Hidden(m', u, w.redoOf[x := n], y)
  {
    forall y | y in w.undone + [x] ensures Hidden(m', u, w.redoOf[x := n], y) {
      if y != x {
        assert y in w.undone && Hidden(m, u, w.redoOf, y);
      }
    }
  }

  lemma TopIsAlone(drawn: seq<int>, undone: seq<int>)
    requires Ascending(drawn + Reverse(undone)) && drawn != []
    ensures var rest, x := drawn[..|drawn| - 1], drawn[|drawn| - 1];
            forall s :: s in rest <==> s in drawn && s != x
  {
    var rest, x := drawn[..|drawn| - 1], drawn[|drawn| - 1];
    var all := drawn + Reverse(undone);
    assert drawn == rest + [x];
    forall s | s in rest ensures s != x {
      var i :| 0 <= i < |rest| && rest[i] == s;
      assert all[i] == s && all[|rest|] == x;
    }
  }

  /** The top of the undone stack is hidden by one undo of a drawing. */
  lemma RedoTarget(m: Log, u: int, w: Widget)
    requires Disciplined(m) && Agrees(m, u, w) && w.undone != []
    ensures var x := w.undone[|w.undone| - 1];
            !Active(m, x) && Hidden(m, u, w.redoOf, x) && Hides(m, w.redoOf[x])
  {
    var x := w.undone[|w.undone| - 1];
    assert x in w.undone;
    assert Hidden(m, u, w.redoOf, x);
    assert m[w.redoOf[x]].kind == Undo;
  }

  /** What undoing an undo of a drawing does to the log. */
  lemma RedoOnLog(m: Log, n: int, e: Event, k: int, x: int)
    requires Above(m, n) && Disciplined(m) && Targets(e, k)
    requires OnlyUndo(m, k, x) && Hides(m, k) && x in m && m[x].kind != Undo
    ensures Disciplined(m[n := e]) && ChangedOnlyAt(m, m[n := e], x)
    ensures ActiveKeys(m[n := e]) == ActiveKeys(m) + {x}
  {
    ShowOne(m, n, e, k, x);
    DisciplinedAppend(m, n, e);
  }

  lemma RedoAuthorAgrees(m: Log, n: int, e: Event, u: int, w: Widget)
    requires Above(m, n) && Agrees(m, u, w) && w.undone != []
    requires Hidden(m, u, w.redoOf, w.undone[|w.undone| - 1])
    requires e == Event(n, u, Undo, UndoPayload(w.redoOf[w.undone[|w.undone| - 1]]), None)
    ensures var x := w.undone[|w.undone| - 1];
            StacksAgree(m[n := e], u, w.drawn + [x], w.undone[..|w.undone| - 1], w.redoOf[w.redoOf[x] := n])
  {
    var x := w.undone[|w.undone| - 1];
    var k := w.redoOf[x];
    var m', rest, redoOf := m[n := e], w.undone[..|w.undone| - 1], w.redoOf[k := n];
    ShowOne(m, n, e, k, x);
    assert w.undone == rest + [x];
    StackTransfer(w.drawn, rest, x);
    ReverseHas(rest);
    var all := w.drawn + [x] + Reverse(rest);
    forall y | y in rest ensures Hidden(m', u, redoOf, y) {
      assert y in w.undone && Hidden(m, u, w.redoOf, y);
      assert y in Reverse(rest);
      var i :| 0 <= i < |Reverse(rest)| && Reverse(rest)[i] == y;
      assert all[|w.drawn|] == x && all[|w.drawn| + 1 + i] == y;
    }
  }
}

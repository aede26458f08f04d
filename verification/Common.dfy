/** Bytes, result types and ordered-set helpers shared by the model's modules. */
module Common {
  type byte = x: int | 0 <= x < 256

  type Bytes = seq<byte>

  datatype Option<+T> = None | Some(value: T)

  datatype Result<+T, +E> = Ok(value: T) | Err(error: E)

  ghost predicate Ascending(s: seq<int>) {
    forall i, j :: 0 <= i < j < |s| ==> s[i] < s[j]
  }

  lemma Inhabited(s: set<int>)
    ensures s == {} || exists x :: x in s
  {
    if forall x :: x !in s { assert s == {}; }
  }

  lemma MaxExists(s: set<int>)
    requires s != {}
    ensures exists x :: x in s && forall y :: y in s ==> y <= x
  {
    Inhabited(s);
    var z :| z in s;
    if s == {z} {
    } else {
      MaxExists(s - {z});
      var x :| x in s - {z} && forall y :: y in s - {z} ==> y <= x;
      assert forall y :: y in s ==> y in s - {z} || y == z;
      assert (if z > x then z else x) in s;
    }
  }

  ghost function MaxOr(s: set<int>, otherwise: int): int {
    if s == {} then otherwise
    else
      MaxExists(s);
      var x :| x in s && forall y :: y in s ==> y <= x;
      x
  }

  /** The ascending list of a set's elements: Python's `sorted` on a key set. */
  function Sorted(s: set<int>): (r: seq<int>)
    ensures Ascending(r)
    ensures forall x :: x in r <==> x in s
  {
    if s == {} then [] else
      MaxExists(s);
      var x :| x in s && forall y :: y in s ==> y <= x;
      Sorted(s - {x}) + [x]
  }

  lemma {:induction false} AscendingUnique(a: seq<int>, b: seq<int>)
    requires Ascending(a) && Ascending(b)
    requires forall x :: x in a <==> x in b
    ensures a == b
  {
    if a == [] {
      assert b == [] by { assert forall i :: 0 <= i < |b| ==> b[i] in a; }
    } else {
      assert a[|a| - 1] in a && a[|a| - 1] in b;
      SameLast(a, b);
      LastApart(a);
      LastApart(b);
      var a', b' := a[..|a| - 1], b[..|b| - 1];
      forall x ensures x in a' <==> x in b' {
        assert (x in a <==> x in b) && a[|a| - 1] == b[|b| - 1];
      }
      AscendingUnique(a', b');
      assert a == a[..|a| - 1] + [a[|a| - 1]] && b == b[..|b| - 1] + [b[|b| - 1]];
    }
  }

  lemma SameLast(a: seq<int>, b: seq<int>)
    requires Ascending(a) && Ascending(b) && a != [] && b != []
    requires forall x :: x in a <==> x in b
    ensures a[|a| - 1] == b[|b| - 1]
  {
    assert a[|a| - 1] in a && b[|b| - 1] in b;
  }

  lemma LastApart(a: seq<int>)
    requires Ascending(a) && a != []
    ensures Ascending(a[..|a| - 1])
    ensures forall x :: x in a[..|a| - 1] <==> x in a && x != a[|a| - 1]
  {
    var rest, z := a[..|a| - 1], a[|a| - 1];
    assert a == rest + [z];
    forall x | x in rest ensures x < z {
      var i :| 0 <= i < |rest| && rest[i] == x;
      assert a[i] == x;
    }
  }

  lemma SortedLast(s: set<int>, otherwise: int)
    ensures MaxOr(s, otherwise) == if Sorted(s) == [] then otherwise else Sorted(s)[|Sorted(s)| - 1]
  {
    var keys := Sorted(s);
    if keys != [] {
      assert keys[|keys| - 1] in keys;
    }
  }

  lemma SortedSingleton(s: set<int>, x: int)
    requires s == {x}
    ensures Sorted(s) == [x]
  {
    var keys := Sorted(s);
    AscendingUnique(keys, [x]);
  }

  lemma SortedAppend(s: set<int>, n: int)
    requires forall x :: x in s ==> x < n
    ensures Sorted(s + {n}) == Sorted(s) + [n]
  {
    var keys := Sorted(s);
    assert forall i :: 0 <= i < |keys| ==> keys[i] in keys;
    AscendingUnique(Sorted(s + {n}), keys + [n]);
  }

  /** Cutting a set at a bound cuts its sorted list at the same place. */
  lemma SortedSplit(s: set<int>, cut: int)
    ensures Sorted(s) == Sorted(set x | x in s && x <= cut) + Sorted(set x | x in s && x > cut)
  {
    var lo, hi := Sorted(set x | x in s && x <= cut), Sorted(set x | x in s && x > cut);
    assert forall i :: 0 <= i < |lo| ==> lo[i] in lo;
    assert forall i :: 0 <= i < |hi| ==> hi[i] in hi;
    AscendingConcat(lo, hi, cut);
    forall x ensures x in lo + hi <==> x in s {}
    AscendingUnique(Sorted(s), lo + hi);
  }

  lemma AscendingConcat(lo: seq<int>, hi: seq<int>, cut: int)
    requires Ascending(lo) && Ascending(hi)
    requires forall i :: 0 <= i < |lo| ==> lo[i] <= cut
    requires forall i :: 0 <= i < |hi| ==> hi[i] > cut
    ensures Ascending(lo + hi)
  {
  }

  /** The sum of a function over a set, each element counted once. */
  ghost function SetSum(s: set<int>, f: int -> int): int {
    if s == {} then 0
    else
      MaxExists(s);
      f(MaxOr(s, 0)) + SetSum(s - {MaxOr(s, 0)}, f)
  }

  lemma {:induction false} SetSumGrows(s: set<int>, x: int, f: int -> int)
    requires x !in s
    ensures SetSum({}, f) == 0
    ensures SetSum(s + {x}, f) == SetSum(s, f) + f(x)
    decreases |s|
  {
    var all := s + {x};
    MaxExists(all);
    var y := MaxOr(all, 0);
    if y == x {
      assert all - {y} == s;
    } else {
      MaxExists(s);
      assert y in s && MaxOr(s, 0) == y;
      assert all - {y} == (s - {y}) + {x};
      SetSumGrows(s - {y}, x, f);
    }
  }
}

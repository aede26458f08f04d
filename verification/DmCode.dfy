/** The code of a direct-message room and how a server reads the other user's
    name back from it. */
module DmCode {
  import opened Common

  /** Python's order on strings: by character, a prefix first. */
  predicate LexLe(a: string, b: string) {
    a == "" || (b != "" && (a[0] < b[0] || (a[0] == b[0] && LexLe(a[1..], b[1..]))))
  }

  function Code(a: string, b: string): string {
    if LexLe(a, b) then "DM-" + a + "-" + b else "DM-" + b + "-" + a
  }

  predicate EndsWith(s: string, suffix: string) {
    |suffix| <= |s| && s[|s| - |suffix|..] == suffix
  }

  /** Reading the recipient, anchored on the reader's own name. */
  function ExtractRecipient(me: string, code: string): Option<string> {
    ReadOther(me, if |code| < 3 then "" else code[3..])
  }

  function ReadOther(me: string, inner: string): Option<string> {
    if me + "-" <= inner then Some(inner[|me| + 1..])
    else if EndsWith(inner, "-" + me) then Some(inner[..|inner| - |me| - 1])
    else None
  }

  lemma {:induction false} LexTotal(a: string, b: string)
    ensures LexLe(a, b) || LexLe(b, a)
    ensures LexLe(a, b) && LexLe(b, a) ==> a == b
    decreases |a|
  {
    if a != "" && b != "" && a[0] == b[0] {
      LexTotal(a[1..], b[1..]);
      assert a == [a[0]] + a[1..] && b == [b[0]] + b[1..];
    }
  }

  lemma {:induction false} PrefixLexLe(a: string, b: string)
    requires a <= b
    ensures LexLe(a, b)
    decreases |a|
  {
    if a != "" {
      PrefixLexLe(a[1..], b[1..]);
    }
  }

  lemma CodeSymmetric(a: string, b: string)
    ensures Code(a, b) == Code(b, a)
  {
    LexTotal(a, b);
  }

  /** Every code names a direct-message room, with the smaller name first. */
  lemma CodeIs(a: string, b: string)
    requires LexLe(a, b)
    ensures Code(a, b) == "DM-" + a + "-" + b && "DM-" <= Code(a, b)
  {
  }

  lemma CodeExample()
    ensures Code("bob", "alice") == "DM-alice-bob" && Code("al", "alice") == "DM-al-alice"
  {
    PrefixLexLe("al", "alice");
    assert LexLe("alice", "bob") && !LexLe("bob", "alice");
  }

  /** The smaller name always reads back the larger. */
  lemma SmallerRecovers(a: string, b: string)
    requires LexLe(a, b)
    ensures ExtractRecipient(a, Code(a, b)) == Some(b)
  {
    assert Code(a, b)[3..] == a + "-" + b;
    AfterPrefix(a + "-", b);
  }

  lemma AfterPrefix(prefix: string, rest: string)
    ensures prefix <= prefix + rest && (prefix + rest)[|prefix|..] == rest
  {
  }

  /** The larger name reads back the smaller exactly when the pair does not begin
      with the larger name and a hyphen, or the larger name ends with the smaller. */
  lemma LargerRecoversExactly(a: string, b: string)
    requires LexLe(a, b)
    ensures ExtractRecipient(b, Code(a, b)) == Some(a) <==> !(b + "-" <= a + "-" + b) || EndsWith(b, a)
  {
    assert Code(a, b)[3..] == a + "-" + b;
    ReadSmaller(a, b);
  }

  lemma ReadSmaller(a: string, b: string)
    requires LexLe(a, b)
    ensures ReadOther(b, a + "-" + b) == Some(a) <==> !(b + "-" <= a + "-" + b) || EndsWith(b, a)
  {
    if b + "-" <= a + "-" + b {
      OverlapIsLonger(a, b);
      SplitAfter(a, b);
    } else {
      SplitBefore(a, b);
    }
  }

  lemma SplitAfter(a: string, b: string)
    requires |a| <= |b|
    ensures (a + "-" + b)[|b| + 1..] == b[|b| - |a|..]
  {
  }

  lemma SplitBefore(a: string, b: string)
    ensures EndsWith(a + "-" + b, "-" + b)
    ensures (a + "-" + b)[..|a + "-" + b| - |b| - 1] == a
  {
    assert (a + "-" + b)[|a|..] == "-" + b;
  }

  /** The larger name can only open the pair when it starts with the smaller. */
  lemma OverlapIsLonger(a: string, b: string)
    requires LexLe(a, b) && b + "-" <= a + "-" + b
    ensures |a| <= |b|
    ensures a != b ==> a + "-" <= b
  {
    var inner := a + "-" + b;
    assert b == inner[..|b|];
    if |b| <= |a| {
      assert b == a[..|b|];
      PrefixLexLe(b, a);
      LexTotal(a, b);
    } else {
      assert b[..|a| + 1] == inner[..|a| + 1] == a + "-";
    }
  }

  /** A larger name that does not begin with the smaller and a hyphen always recovers it. */
  lemma LargerRecovers(a: string, b: string)
    requires LexLe(a, b) && (a == b || !(a + "-" <= b))
    ensures ExtractRecipient(b, Code(a, b)) == Some(a)
  {
    LargerRecoversExactly(a, b);
    if b + "-" <= a + "-" + b { OverlapIsLonger(a, b); }
  }

  /** A pair for which the larger name reads the wrong recipient. */
  lemma HyphensCanMislead()
    ensures LexLe("a-b", "a-b-a")
    ensures ExtractRecipient("a-b-a", Code("a-b", "a-b-a")) == Some("b-a")
  {
    PrefixLexLe("a-b", "a-b-a");
    var code := Code("a-b", "a-b-a");
    assert code == "DM-a-b-a-b-a";
    assert code[3..] == "a-b-a-b-a";
    assert "a-b-a-b-a"[6..] == "b-a";
  }

  /** Names without hyphens: each code belongs to one pair. */
  lemma CodeInjective(a: string, b: string, c: string, d: string)
    requires '-' !in a && '-' !in b && '-' !in c && '-' !in d
    requires Code(a, b) == Code(c, d)
    ensures {a, b} == {c, d}
  {
    var (x, y) := if LexLe(a, b) then (a, b) else (b, a);
    var (z, w) := if LexLe(c, d) then (c, d) else (d, c);
    assert Code(a, b)[3..] == x + "-" + y && Code(c, d)[3..] == z + "-" + w;
    PairInjective(x, y, z, w);
  }

  lemma PairInjective(x: string, y: string, z: string, w: string)
    requires '-' !in x && '-' !in y && '-' !in z && '-' !in w
    requires x + "-" + y == z + "-" + w
    ensures x == z && y == w
  {
    var pair := x + "-" + y;
    HyphenAt(x, y);
    HyphenAt(z, w);
    assert pair[|x|] == '-';
    assert x == pair[..|x|] && z == pair[..|z|];
    assert y == pair[|x| + 1..] && w == pair[|z| + 1..];
  }

  lemma HyphenAt(x: string, y: string)
    requires '-' !in x && '-' !in y
    ensures forall i :: 0 <= i < |x + "-" + y| ==> ((x + "-" + y)[i] == '-' <==> i == |x|)
  {
    var s := x + "-" + y;
    forall i | 0 <= i < |s| ensures s[i] == '-' <==> i == |x| {
      if i < |x| { assert s[i] == x[i] && x[i] in x; }
      else if i > |x| { assert s[i] == y[i - |x| - 1] && y[i - |x| - 1] in y; }
    }
  }
}
